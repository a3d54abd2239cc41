# pycontainer, modelled in Dafny

pycontainer (`main.py`) is a minimal container runtime in Python. It starts
one command in fresh Linux namespaces, chrooted into a throw-away root
filesystem, under a cgroup v2 memory and CPU limit. Three classes do the work:

- `CGroupManager` creates the group `/sys/fs/cgroup/<name>`, writes
  `memory.max` and `cpu.max`, enrols a process through `cgroup.procs` and
  removes the group with `rmdir`, ignoring any `OSError`.
- `RootFSManager` makes a `mkdtemp` directory and fills it:
  - the skeleton `bin lib lib64 proc tmp dev etc`;
  - a copy of the first busybox found, with links for ten commands;
  - optionally bash and every shared library that `ldd` lists for it.

  Cleanup removes the tree.
- `Container.run` creates the group, provisions the rootfs, enrols the
  orchestrating process and runs `unshare ... chroot <rootfs> <command>`. It
  maps the outcome to an exit code, and its `finally` clause always cleans up,
  the cgroup first.

The model has seven modules:

| module | file | models |
|---|---|---|
| `Wrappers` | `wrappers.dfy` | `Option`, `Result` and `Outcome` |
| `PyText` | `text.dfy` | the Python string operations the code relies on: `str(int)`, `in`, `strip`, `split()`, `split(sep)`, `splitlines`, `lstrip(c)` |
| `RootTree` | `tree.dfy` | the rootfs as a table from paths to entries (directory, copied file, symbolic link), and the pathlib/shutil calls on it |
| `Ldd` | `ldd.dfy` | the `ldd` line parser and the destination `rootfs / lib.lstrip('/')` |
| `CGroups` | `cgroup.dfy` | `CGroupManager`, over a `Kernel` value (may the group be made, which writes does the kernel accept) |
| `RootFS` | `rootfs.dfy` | `RootFSManager`, over a `Host` value (existing host files, the output of `ldd`, the `mkdtemp` name) |
| `Lifecycle` | `lifecycle.dfy` | `Container.run` and `_cleanup` |

Each imperative operation has two forms:

- a function on the state, which is the specification;
- a method of a class whose fields the source updates, with an `ensures`
  clause tying the new state to that function.

The lemmas state the properties the code promises about those functions.
`Container.run` also records a trace of `Event`s, so that ordering and
"exactly once" can be stated.

Three behaviours of the code are worth knowing, and the model states them as
the code has them:

- The `except subprocess.CalledProcessError` in `_copy_bash` suggests that
  failures while copying the optional bash and its libraries were meant to be
  swallowed. In fact `ldd` runs with `check=False`, so that exception is never
  raised. A filesystem error during the copy, or a missing `ldd` program,
  escapes `create`, and `run` returns 1 (`RootFS.BashInstallFailures`,
  `RootFS.ProvisioningLddMissing`).
- `cleanup` is evidently meant to remove the group. In fact the orchestrator
  enrols itself (`os.getpid()`) and is still alive when `rmdir` runs. The
  kernel refuses (EBUSY), and the `OSError` is swallowed. So after any run that
  enrolled the process, the group is still there
  (`CGroups.EnrolledGroupOutlivesCleanup`, `Lifecycle.EnrolledRunLeavesGroup`).
- `Path.exists()` follows symbolic links. A dangling link therefore does not
  "exist", and `symlink_to` over it raises. The model follows links up to the
  40 hops Linux allows.

## Model

| member | source | states |
|---|---|---|
| PyText.IntToDecimal | main.py:36 | `str(i)` is non-empty, has no space, and starts with `-` exactly when `i` is negative |
| PyText.DecimalRoundTrip | main.py:36 | the decimal text of any integer parses back to that integer |
| PyText.DecimalInjective | main.py:43 | two integers with the same decimal text are equal: distinct pids are written as distinct texts |
| PyText.Find | main.py:128 | the substring search finds the leftmost occurrence, and finds none exactly when there is none |
| PyText.SplitOn | main.py:130 | the pieces of `split(sep)` never contain `sep`, and there are at least two exactly when `sep` occurs |
| PyText.JoinSplitOn | main.py:130 | joining the pieces of `split(sep)` with `sep` gives back the text |
| PyText.SplitOnJoin | main.py:130 | splitting a `sep`-join of pieces free of a one-character `sep` gives back the pieces |
| PyText.SplitOnHead | main.py:130 | piece 0 of `split(sep)` is the text before the first `sep`, and piece 1 is the text between the first and the second |
| PyText.LeadingSpace | main.py:130 | `strip` removes exactly the maximal whitespace prefix |
| PyText.TrailingSpace | main.py:130 | `strip` removes exactly the maximal whitespace suffix |
| PyText.Split | main.py:130 | every word of `split()` is non-empty and free of whitespace |
| PyText.SplitEmpty | main.py:131 | `split()` is empty exactly when the text is all whitespace |
| PyText.SplitHead | main.py:130 | `split()[0]` is `t` exactly when `t` is the first maximal run of non-whitespace after the leading whitespace |
| PyText.SplitTrailingSpace | main.py:130 | trailing whitespace does not change the result of `split()` |
| PyText.SplitIgnoresStrip | main.py:135 | `strip().split()` equals `split()` |
| PyText.SplitHeadStartsWith | main.py:133-135 | a text starting with a non-space character has a first word starting with that character |
| PyText.LStripChar | main.py:138 | `lstrip('/')` returns a suffix, removes only `/` characters, and leaves no leading `/` |
| PyText.LineEnd | main.py:125 | a line ends at the first line-break character |
| PyText.SplitLinesNoBreak | main.py:125 | no line of `splitlines()` contains a line break |
| PyText.SplitLinesStep | main.py:125 | a `\n` ends the first line, and splitting continues right after it |
| PyText.SplitLinesTerminated | main.py:125 | for a text whose only line breaks are `\n`, terminating each line of `splitlines()` with `\n` rebuilds the text, with a final `\n` added if it lacked one |
| PyText.SplitLinesCrLf | main.py:125 | `\r\n` is a single line boundary: the next line starts after both characters, with no empty line between them |
| RootTree.MkdirParents | main.py:66 | `mkdir(parents=True, exist_ok=True)` succeeds exactly when no non-directory lies on the way. It then leaves the path a directory and alters no existing entry |
| RootTree.MkdirParentsAdds | main.py:139 | `mkdir(parents=True)` adds only directories, on the way to the path |
| RootTree.Resolve | main.py:100 | a path that is not a link resolves to itself. Following links stays in the link's directory and ends at a non-link. It gives up only on a link, and always on a link once the hops are spent |
| RootTree.ResolveMonotone | main.py:100 | adding entries does not change where an already resolving path leads |
| RootTree.ExistsMonotone | main.py:140 | a path that exists still exists after entries are added |
| RootTree.Copy2 | main.py:93 | `copy2` succeeds exactly when the destination's links resolve, the destination's directory exists and no directory stands there. It writes the file where the links lead |
| RootTree.Chmod755 | main.py:94 | `chmod` succeeds exactly when the path exists. It marks executable only the file the path leads to |
| RootTree.SymlinkTo | main.py:101 | `symlink_to` succeeds exactly when the name is free, even of a dangling link, and its directory exists. It adds only the link |
| Ldd.LddArrowLine | main.py:128-132 | on a line with `=>`, the parser yields exactly the first word of the text between the first `=>` and the next one |
| Ldd.LddArrowLineBlank | main.py:130-131 | on a line with `=>`, the parser yields nothing exactly when only whitespace follows the `=>` |
| Ldd.LddPlainLine | main.py:133-135 | on a line without `=>`, the parser yields `t` exactly when `t` is the line's first word and starts with `/` |
| Ldd.KeepComponents | main.py:138 | the path components pathlib keeps are non-empty, not `.` and free of `/`. A piece is kept exactly when it is such a component |
| Ldd.KeepComponentsAppend | main.py:138 | the components are kept in order: filtering a concatenation concatenates the filtered parts |
| Ldd.DestinationMirrorsHostPath | main.py:138 | a library at `/c1/.../cn` is copied to `c1/.../cn` below the rootfs |
| Ldd.DestinationKeepsDotDot | main.py:138 | `..` is kept: `/../x` lands at `../x`, outside the rootfs table's top level |
| RootFS.Skeleton | main.py:65-66 | the skeleton step keeps the table well-formed and alters no existing entry |
| RootFS.SkeletonMade | main.py:65-66 | the skeleton succeeds exactly when no non-directory holds one of its names. It then makes each name a directory and adds nothing else |
| RootFS.SkeletonRepeatable | main.py:65-66 | over a finished skeleton, making it again changes nothing and does not fail (`exist_ok`) |
| RootFS.SkeletonOnFreshDir | main.py:62-66 | on the fresh `mkdtemp` directory, the skeleton succeeds. It leaves its seven directories and no other entry |
| RootFS.FirstExistingIsFirst | main.py:83-87 | the busybox search returns an existing candidate with none before it, and returns nothing only when no candidate exists |
| RootFS.BusyboxFound | main.py:83-88 | some busybox candidate exists on the host exactly when the search finds one |
| RootFS.RootFSManager.FindBusybox | main.py:80-86 | the search loop returns the first of the three candidates the host has |
| RootFS.BusyboxAbsent | main.py:88-89 | with no candidate on the host, the busybox step answers `false` and changes nothing, and only then |
| RootFS.CommandLinks | main.py:97-101 | the link step keeps the table well-formed and alters no existing entry |
| RootFS.CommandLinksAdd | main.py:97-101 | the link step adds only `bin/<cmd>` links to `busybox` for listed commands |
| RootFS.CommandLinksComplete | main.py:97-101 | when the link step completes, every listed command has an entry in `bin` |
| RootFS.CommandLinksSucceed | main.py:98-101 | the link step completes when `bin` is a directory and each link either exists or is absent |
| RootFS.CommandNames | main.py:97 | the ten command names are distinct, and neither is `busybox` nor `bash` |
| RootFS.LinksReachBusybox | main.py:99-101 | a command link resolves to `bin/busybox`, the busybox copy |
| RootFS.FreshFileInBin | main.py:92-94 | `copy2` then `chmod(0o755)` to a free name in `bin` leaves exactly an executable copy there |
| RootFS.BusyboxInstalled | main.py:78-103 | with a busybox on the host: executable copy at `bin/busybox`, a link to it for each command, nothing existing altered, answer `true` |
| RootFS.Libraries | main.py:125-137 | each `ldd` line gives the library it names when the host has it, line for line |
| RootFS.CopyKeepsExisting | main.py:140-141 | a library whose destination exists (links followed) is not copied, and nothing changes |
| RootFS.LibraryCopySpec | main.py:137-141 | one library copy alters no existing entry. It adds only the missing directories and the copy, and leaves the destination existing when it completes |
| RootFS.LibraryCopiesSpec | main.py:125-141 | the library loop alters no entry and adds only entries some line's library accounts for. On completion, every listed library the host has exists under the rootfs |
| RootFS.BashInstalled | main.py:105-144 | without bash on the host nothing happens. Without `ldd` the step fails. On completion, bash is an executable copy and every library is installed |
| RootFS.BashInstallFailures | main.py:117-144 | the bash step fails only with a filesystem error or for want of `ldd`: the `CalledProcessError` handler never applies |
| RootFS.AfterSkeletonNeedsBusybox | main.py:68-70 | after the skeleton, `create` fails for want of busybox exactly when no candidate exists |
| RootFS.ProvisioningNeedsBusybox | main.py:60-70 | `create` raises the busybox error exactly when none of the three candidates exists |
| RootFS.ProvisioningLayout | main.py:60-103 | after a successful `create`: the skeleton exists, busybox is an executable copy of the first candidate found, and each command is a link that resolves to `bin/busybox` |
| RootFS.ProvisioningBash | main.py:72-73 | after a successful `create` on a host with bash: bash is installed executable, with every library `ldd` lists |
| RootFS.ProvisioningWithoutBash | main.py:107-109 | bash is optional: with a busybox and without bash, `create` succeeds |
| RootFS.ProvisioningLddMissing | main.py:117-123 | with busybox and bash but no `ldd` program, `create` fails |
| RootFS.RootFSManager.constructor | main.py:56-58 | a new manager has no rootfs yet |
| RootFS.RootFSManager.Create | main.py:60-76 | `create` leaves the table the provisioning function gives, and returns the `mkdtemp` path or the error |
| RootFS.RootFSManager.MakeSkeleton | main.py:64-66 | the skeleton loop follows the skeleton function, stopping at the first error |
| RootFS.RootFSManager.SetupBusybox | main.py:78-103 | `_setup_busybox` follows the busybox function |
| RootFS.RootFSManager.LinkCommands | main.py:96-101 | the link loop follows the link function |
| RootFS.RootFSManager.CopyBash | main.py:105-144 | `_copy_bash` follows the bash function |
| RootFS.RootFSManager.CopyLddLibraries | main.py:125-141 | the loop over `ldd` lines follows the library function |
| RootFS.RootFSManager.CopyLibrary | main.py:137-141 | one library copy follows the single-copy function |
| RootFS.RootFSManager.Cleanup | main.py:146-149 | `cleanup` removes the rootfs if it is there. A second call changes nothing |
| CGroups.MemoryLimitDenotes | main.py:36 | `memory.max` receives exactly `memory_mb` MiB, in bytes |
| CGroups.CpuLimitDenotes | main.py:37 | `cpu.max` receives a quota of `cpu_percent * 1000` per 100000-microsecond period |
| CGroups.CreateGroupSpec | main.py:32-37 | `create` succeeds exactly when the directory exists or may be made and both limits are accepted. It then holds both limits, never changes members, and leaves other control files alone |
| CGroups.EnrollProcessSpec | main.py:41-43 | `add_process` succeeds exactly when the group exists and the write is accepted. It adds that pid only, and never touches the limits |
| CGroups.RemoveGroupSpec | main.py:45-50 | after `cleanup` the group is gone exactly when it had no members. Cleanup never fails and is idempotent |
| CGroups.EnrolledGroupOutlivesCleanup | main.py:41-50 | a group the live process joined is not removed by `cleanup` |
| CGroups.CGroupManager.constructor | main.py:28-30 | the manager's path is `/sys/fs/cgroup/<name>` |
| CGroups.CGroupManager.Create | main.py:32-39 | the method follows the create function |
| CGroups.CGroupManager.AddProcess | main.py:41-43 | the method follows the enrol function |
| CGroups.CGroupManager.Cleanup | main.py:45-50 | the method follows the removal function and never fails |
| Lifecycle.AttemptedSetsUp | main.py:166-192 | the `try` block never cleans up |
| Lifecycle.RunExitCode | main.py:160-201 | the exit code is the launcher's own code, or 130 on an interrupt. It is 1 when the launch raises or any set-up step fails |
| Lifecycle.NoLaunchWithoutRootfs | main.py:168-199 | when the rootfs cannot be made, `run` gives 1 and launches nothing |
| Lifecycle.RunWithoutBusybox | main.py:166-199 | without busybox on the host, `run` gives 1 and launches nothing |
| Lifecycle.CleanupOnceAndLast | main.py:200-209 | on every path, cleanup runs exactly once, last, the cgroup before the rootfs |
| Lifecycle.LaunchAfterSetUp | main.py:166-191 | the command is launched exactly when set-up succeeds, after the group was made, the rootfs provisioned and the process enrolled, in that order |
| Lifecycle.LaunchUsesCreatedRootfs | main.py:177-191 | the `chroot` target is the directory `mkdtemp` made |
| Lifecycle.EnrolledRunLeavesGroup | main.py:174-208 | after a run that enrolled the process, the group is still there with the process in it |
| Lifecycle.Container.constructor | main.py:155-158 | the container's managers are new objects and share its name. Nothing has happened yet: the group is as the kernel has it, and there is no rootfs |
| Lifecycle.Container.Run | main.py:160-201 | `run` returns the code, takes the steps and leaves the group that the run function gives for this host's `create` result. It always removes the rootfs, and keeps its path once `create` ran |
| Lifecycle.Container.Attempt | main.py:166-199 | the `try` block follows the attempt function for this host's `create` result. Once the group is created, the rootfs is provisioned at the `mkdtemp` path, and otherwise it is untouched |
| Lifecycle.Container.CreateRootfs | main.py:169 | the call of the rootfs manager's `create` returns `create`'s result on the host, and leaves the provisioned rootfs at the `mkdtemp` path |
| Lifecycle.Container.Cleanup | main.py:203-210 | `_cleanup` removes the cgroup (if it can) and then the rootfs, and never raises |

## Left out

- Running the container. `unshare`, `chroot`, the namespaces and the command are not modelled. How the launch ends is a parameter (`LaunchResult`), and so is the orchestrator's pid (`os.getpid()`).
- The real filesystem. The host is the set of paths for which `os.path.exists` holds. Each is a regular file, so no host symbolic links and no directories are copied.
- The output of `ldd`. It is a parameter: `None` when there is no `ldd` program. Nothing is executed.
- Errno values. An `OSError` keeps only the path it concerns.
- The uniqueness and randomness of `mkdtemp`'s name. The name is a parameter, and the new directory is empty.
- File contents and modes. A copy records only its source and whether `chmod(0o755)` made it executable.
- Link targets. A symbolic link's target is resolved as a name in the link's own directory, which covers the `busybox` links the code makes.
- `..` in a library's destination. It is kept as a component, as pathlib keeps it, and the table treats it as an ordinary name. So `usr/lib/../lib/x` and `lib/x` are distinct keys, though on disk they are one file. The `exists()` check at main.py:140 and the copy target do not see that they coincide, and the table does not model that `..` leads out of the rootfs.
- MkdirParents: a symbolic link on the way counts as blocking. pathlib's `mkdir(parents=True, exist_ok=True)` accepts a link to a directory, because `is_dir()` follows it. No table the provisioner builds has such a link on a `mkdir` path.
- A failing `mkdtemp` (an `OSError` at main.py:62, after which `run` returns 1). The model always gets its directory.
- Lifecycle.RunReport: a `KeyboardInterrupt` is modelled only while `run` waits for the launched process, not during set-up.
- RootFS.RootFSManager.Cleanup: `shutil.rmtree` is taken never to fail.
- The limits of a group that already existed. `create` starts from no recorded limits.
- OOM enforcement by the kernel. A process it kills is a launch ending with whatever return code `subprocess.run` reports. That is -9 when `unshare --fork` re-raises the SIGKILL, or 137 when a shell inside the container reports the killed child.
- RootTree.Copy2: a destination that is a directory is refused, whereas `shutil.copy2` copies into it. `main.py` never passes one: `bin/busybox` and `bin/bash` go into a fresh table, and a library is copied only when its destination does not exist.
- The `print` output, `main`, the demo functions and the command line.
