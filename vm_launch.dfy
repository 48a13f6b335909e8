/**
 * How the native module starts the VM: the command line it hands to the
 * emulator's entry point, the serial-socket path shared with the console
 * worker, and the lookup (with cache and ABI-directory fallback) of that
 * entry point in the bundled library.
 */
module VmLaunch {
  import opened Base
  import opened ConsoleBridge

  /** `PATH_MAX`, the size of the path buffers filled by `snprintf`. */
  const PathMax := 4096

  const LibraryName := "libqemu-system-aarch64.so"

  /** The ABI name `OH_GetAbiList` reports for 64-bit ARM, and the directory tried instead. */
  const Arm64V8a := "arm64-v8a"
  const Arm64Dir := "arm64"

  // ---------------------------------------------------------------------
  // Command line.

  /** Where the emulator listens for the serial console and the worker connects. */
  function SocketPath(tempDir: string): string {
    tempDir + "/serial_socket"
  }

  /** The `-serial` value: a listening UNIX socket at the socket path. */
  function SerialOption(tempDir: string): string {
    "unix:" + SocketPath(tempDir) + ",server"
  }

  function KernelPath(vmFilesDir: string): string {
    vmFilesDir + "/kernel_aarch64"
  }

  function DriveOption(vmFilesDir: string): string {
    "if=none,format=qcow2,file=" + vmFilesDir + "/alpine_aarch64_rootfs.qcow2" + ",id=hd0"
  }

  /** The `args` table of `startVM`, closed by its `nullptr` (`None`). */
  function ArgTable(vmFilesDir: string, tempDir: string): seq<Option<string>> {
    [ Some("qemu-system-aarch64"),
      Some("-machine"), Some("virt"),
      Some("-cpu"), Some("cortex-a53"),
      Some("-smp"), Some("2"),
      Some("-m"), Some("1G"),
      Some("-kernel"), Some(KernelPath(vmFilesDir)),
      Some("-drive"), Some(DriveOption(vmFilesDir)),
      Some("-device"), Some("virtio-blk-device,drive=hd0"),
      Some("-append"), Some("root=/dev/vda rw rootfstype=ext4 console=ttyAMA0 TERM=ansi"),
      Some("-nographic"),
      Some("-L"), Some(vmFilesDir),
      Some("-serial"), Some(SerialOption(tempDir)),
      Some("-netdev"), Some("user,id=eth0"),
      Some("-device"), Some("virtio-net-device,netdev=eth0"),
      None ]
  }

  /** `while (args[argc] != nullptr) argc += 1;`: the entries before the terminator. */
  method CountArgs(args: seq<Option<string>>) returns (argc: nat)
    requires exists k :: 0 <= k < |args| && args[k].None?
    ensures argc < |args| && args[argc].None?
    ensures forall j :: 0 <= j < argc ==> args[j].Some?
  {
    argc := 0;
    while args[argc] != None
      invariant argc < |args|
      invariant forall j :: 0 <= j < argc ==> args[j].Some?
      invariant exists k :: argc <= k < |args| && args[k].None?
      decreases |args| - argc
    {
      argc := argc + 1;
    }
  }

  /** The table has 26 entries before its terminator. */
  lemma ArgTableTerminator(vmFilesDir: string, tempDir: string)
    ensures |ArgTable(vmFilesDir, tempDir)| == 27
    ensures ArgTable(vmFilesDir, tempDir)[26].None?
    ensures forall j :: 0 <= j < 26 ==> ArgTable(vmFilesDir, tempDir)[j].Some?
  {
  }

  /** The strings the emulator receives as `argv`. */
  function Values(args: seq<Option<string>>, n: nat): (argv: seq<string>)
    requires n <= |args| && forall j :: 0 <= j < n ==> args[j].Some?
    ensures |argv| == n && forall j :: 0 <= j < n ==> args[j] == Some(argv[j])
  {
    seq(n, j requires 0 <= j < n => args[j].value)
  }

  /**
   * The command-line part of `startVM`: the VM directory under the files
   * directory, the serial-socket path under the temporary directory, the
   * argument table, and `argc` as counted up to the terminator.
   */
  method StartVmCommandLine(filesDir: string, tempDir: string)
    returns (argc: nat, argv: seq<string>, socketPath: string)
    ensures socketPath == tempDir + "/serial_socket"
    ensures argc == 26 && |argv| == argc
    ensures argv[0] == "qemu-system-aarch64"
    ensures argv[9..11] == ["-kernel", filesDir + "/vm" + "/kernel_aarch64"]
    ensures argv[18..20] == ["-L", filesDir + "/vm"]
    ensures argv[20..22] == ["-serial", "unix:" + socketPath + ",server"]
    ensures forall j :: 0 <= j < argc ==> ArgTable(filesDir + "/vm", tempDir)[j] == Some(argv[j])
  {
    var vmFilesDir := filesDir + "/vm";
    socketPath := SocketPath(tempDir);
    var args := ArgTable(vmFilesDir, tempDir);
    ArgTableTerminator(vmFilesDir, tempDir);
    argc := CountArgs(args);
    argv := Values(args, argc);
    assert argv[9] == "-kernel" && argv[10] == KernelPath(vmFilesDir);
    assert argv[18] == "-L" && argv[19] == vmFilesDir;
    assert argv[20] == "-serial" && argv[21] == SerialOption(tempDir);
  }

  // ---------------------------------------------------------------------
  // Locating the emulator's entry point.

  /** What `snprintf(buf, PATH_MAX, …)` keeps of a formatted string. */
  function Truncated(s: string): (t: string)
    ensures |t| <= PathMax - 1 && |t| <= |s|
    ensures t == s[..|t|]
    ensures |s| <= PathMax - 1 ==> t == s
  {
    if |s| <= PathMax - 1 then s else s[..PathMax - 1]
  }

  /** `"%s/libs/%s/libqemu-system-aarch64.so"`, as `snprintf` writes it into `PATH_MAX` bytes. */
  function LibraryPath(bundleCodeDir: string, abi: string): string {
    Truncated(bundleCodeDir + "/libs/" + abi + "/" + LibraryName)
  }

  /**
   * The library path `getQemuSystemEntry` opens: the directory named by the
   * ABI, or `arm64` when the ABI is exactly `arm64-v8a` and that file is
   * not there (`existing` is what `access(…, F_OK)` finds).
   */
  function ChosenLibraryPath(bundleCodeDir: string, abi: string, existing: set<string>): (path: string)
    ensures path == LibraryPath(bundleCodeDir, abi)
      || (abi == Arm64V8a && path == LibraryPath(bundleCodeDir, Arm64Dir))
  {
    var first := LibraryPath(bundleCodeDir, abi);
    if abi == Arm64V8a && first !in existing then LibraryPath(bundleCodeDir, Arm64Dir) else first
  }

  /** The fallback directory is used exactly when the ABI is `arm64-v8a` and its own file is missing. */
  lemma FallbackOnlyForMissingArm64(bundleCodeDir: string, abi: string, existing: set<string>)
    ensures ChosenLibraryPath(bundleCodeDir, abi, existing) != LibraryPath(bundleCodeDir, abi)
        ==> abi == Arm64V8a && LibraryPath(bundleCodeDir, abi) !in existing
    ensures abi == Arm64V8a && LibraryPath(bundleCodeDir, abi) !in existing
        ==> ChosenLibraryPath(bundleCodeDir, abi, existing) == LibraryPath(bundleCodeDir, Arm64Dir)
  {
  }

  /** With a short enough bundle directory, the path is the directory, `libs`, the ABI and the library name. */
  lemma LibraryPathShape(bundleCodeDir: string, abi: string)
    requires |bundleCodeDir| + |abi| + 7 + |LibraryName| <= PathMax - 1
    ensures LibraryPath(bundleCodeDir, abi) == bundleCodeDir + "/libs/" + abi + "/" + LibraryName
  {
  }

  /**
   * The dynamic loader seen by `getQemuSystemEntry`: `dlopen(path)`
   * succeeds for the paths in `libs`, and `dlsym` of `qemu_system_entry`
   * in that library gives the stored value (`None` for null).
   * `defaultScope` is what `dlsym(NULL, …)` gives after a failed `dlopen`.
   */
  datatype Loader = Loader(existing: set<string>, libs: map<string, Option<int>>, defaultScope: Option<int>)

  /** The entry point one uncached lookup yields. */
  function ResolveEntry(bundleCodeDir: string, abi: string, loader: Loader): Option<int> {
    var path := ChosenLibraryPath(bundleCodeDir, abi, loader.existing);
    if path in loader.libs then loader.libs[path] else loader.defaultScope
  }

  /** The function-local `static QemuSystemEntry qemuSystemEntry` and the lookup that fills it. */
  class EntryCache {
    var cached: Option<int>

    constructor ()
      ensures cached == None
    {
      cached := None;
    }

    /**
     * `getQemuSystemEntry()`: a non-null cached entry is returned without
     * touching the loader; otherwise the entry is looked up again and stored,
     * even when the lookup yields null, so that a later call retries.
     */
    method GetQemuSystemEntry(bundleCodeDir: string, abi: string, loader: Loader) returns (entry: Option<int>)
      modifies this
      ensures old(cached).Some? ==> entry == old(cached) && cached == old(cached)
      ensures old(cached).None? ==> entry == ResolveEntry(bundleCodeDir, abi, loader) && cached == entry
    {
      if cached.Some? {
        return cached;
      }
      var libQemuPath := LibraryPath(bundleCodeDir, abi);
      if abi == Arm64V8a && libQemuPath !in loader.existing {
        libQemuPath := LibraryPath(bundleCodeDir, Arm64Dir);
      }
      if libQemuPath in loader.libs {
        cached := loader.libs[libQemuPath];
      } else {
        cached := loader.defaultScope;
      }
      entry := cached;
    }
  }

  /** The bytes of a string whose characters are single non-NUL bytes. */
  function Bytes(s: string): (b: seq<Byte>)
    requires forall i :: 0 <= i < |s| ==> 0 < s[i] as int < 256
    ensures |b| == |s| && forall i :: 0 <= i < |s| ==> b[i] == s[i] as int && b[i] != 0
  {
    seq(|s|, i requires 0 <= i < |s| => s[i] as int)
  }

  /** `c_str()`: the bytes followed by a NUL. */
  function CStr(s: string): seq<Byte>
    requires forall i :: 0 <= i < |s| ==> 0 < s[i] as int < 256
  {
    Bytes(s) + [0]
  }

  /**
   * The socket the virtual machine serves on and the one the console
   * worker connects to: the `-serial` argument serves on the socket path,
   * and the worker, handed the same path's `c_str()`, puts exactly that
   * path in `sun_path` when it is shorter than `sun_path`, and a path cut
   * to 107 bytes (a different socket) when it is not.
   */
  lemma SerialOptionNamesWorkerSocket(vmFilesDir: string, tempDir: string)
    requires forall i :: 0 <= i < |tempDir| ==> 0 < tempDir[i] as int < 256
    ensures ArgTable(vmFilesDir, tempDir)[20] == Some("-serial")
    ensures ArgTable(vmFilesDir, tempDir)[21] == Some("unix:" + SocketPath(tempDir) + ",server")
    ensures forall i :: 0 <= i < |SocketPath(tempDir)| ==> 0 < SocketPath(tempDir)[i] as int < 256
    ensures CString(SunPathBytes(CStr(SocketPath(tempDir))))
         == if |SocketPath(tempDir)| < SunPathSize then Bytes(SocketPath(tempDir))
            else Bytes(SocketPath(tempDir))[..SunPathSize - 1]
  {
    var p := SocketPath(tempDir);
    assert forall i :: |tempDir| <= i < |p| ==> p[i] == "/serial_socket"[i - |tempDir|];
    var c := CStr(p);
    CLengthIs(c, |p|);
    assert CString(c) == Bytes(p);
    SunPathReadsBack(c);
  }
}
