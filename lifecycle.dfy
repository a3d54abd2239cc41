/**
 * The container lifecycle (`Container.run` and `_cleanup`): create the cgroup,
 * provision the rootfs, move the orchestrating process into the cgroup, launch
 * the command under `unshare ... chroot`, and always clean up, cgroup first.
 *
 * The launched command is not modelled; how it ends is a parameter
 * (`LaunchResult`), as is the orchestrator's pid.  What `run` does is recorded
 * as a trace of `Event`s so that ordering and "exactly once" can be stated.
 */
module Lifecycle {
  import opened Wrappers
  import opened CGroups
  import opened RootFS

  datatype ContainerConfig = ContainerConfig(name: string, memoryMb: int, cpuPercent: int, command: string)

  /** How the launched `unshare` process ends, as `run` sees it. */
  datatype LaunchResult =
    | Exited(code: int)   // `subprocess.run` returned this return code
    | Raised              // `subprocess.run` raised an ordinary exception (e.g. no `unshare`)
    | Interrupted         // a KeyboardInterrupt arrived while waiting

  /** The steps `run` takes, in the order it takes them. */
  datatype Event =
    | CGroupCreate
    | RootfsCreate
    | Enroll(pid: int)
    | Launch(argv: seq<string>)
    | CGroupCleanup
    | RootfsCleanup

  /** The command line that starts the container: fresh namespaces, then `chroot` into the rootfs. */
  function LaunchArgv(rootfs: string, command: string): seq<string> {
    ["unshare", "--fork", "--pid", "--net", "--mount", "--uts", "--ipc", "--mount-proc", "chroot", rootfs, command]
  }

  /** The exit code `run` gives once the launch was reached. */
  function LaunchCode(launch: LaunchResult): int {
    match launch
    case Exited(code) => code
    case Raised => 1
    case Interrupted => 130
  }

  /** What one `run` returns, what it did, and the cgroup it leaves. */
  datatype Report = Report(code: int, events: seq<Event>, group: Group)

  /** A step of `run` other than cleanup. */
  predicate IsSetUpEvent(e: Event) { !e.CGroupCleanup? && !e.RootfsCleanup? }

  /**
   * The `try` block of `run`, on a cgroup that stands as `g` and with `rootfs`
   * what the rootfs manager's `create` returns: the set-up steps up to the first
   * that fails (any exception from them is caught and gives 1), then the launch.
   */
  function Attempted(cfg: ContainerConfig, k: Kernel, g: Group, rootfs: Result<string, Error>, pid: int, launch: LaunchResult): Report {
    var path := GroupPath(cfg.name);
    var created := CreateGroup(k, path, g, cfg.memoryMb, cfg.cpuPercent);
    if created.outcome.Fail? then Report(1, [CGroupCreate], created.group)
    else if rootfs.Err? then Report(1, [CGroupCreate, RootfsCreate], created.group)
    else
      var enrolled := EnrollProcess(k, path, created.group, pid);
      if enrolled.outcome.Fail? then Report(1, [CGroupCreate, RootfsCreate, Enroll(pid)], enrolled.group)
      else
        var argv := LaunchArgv(rootfs.value, cfg.command);
        Report(LaunchCode(launch), [CGroupCreate, RootfsCreate, Enroll(pid), Launch(argv)], enrolled.group)
  }

  /** The `try` block never cleans up. */
  lemma AttemptedSetsUp(cfg: ContainerConfig, k: Kernel, g: Group, rootfs: Result<string, Error>, pid: int, launch: LaunchResult)
    ensures forall e | e in Attempted(cfg, k, g, rootfs, pid, launch).events :: IsSetUpEvent(e)
  {
  }

  /** `run`: the `try` block, then `_cleanup` from the `finally` clause, cgroup first, then the rootfs. */
  function RunReport(cfg: ContainerConfig, k: Kernel, g: Group, rootfs: Result<string, Error>, pid: int, launch: LaunchResult): Report {
    var a := Attempted(cfg, k, g, rootfs, pid, launch);
    Report(a.code, a.events + [CGroupCleanup, RootfsCleanup], RemoveGroup(a.group))
  }

  /** All three set-up steps succeed. */
  predicate SetUp(cfg: ContainerConfig, k: Kernel, g: Group, rootfs: Result<string, Error>, pid: int) {
    var path := GroupPath(cfg.name);
    var created := CreateGroup(k, path, g, cfg.memoryMb, cfg.cpuPercent);
    created.outcome.Pass? && rootfs.Ok? && EnrollProcess(k, path, created.group, pid).outcome.Pass?
  }

  /**
   * The exit code: when set-up succeeds, the launcher's return code unchanged
   * (-9 when `unshare` re-raises the SIGKILL of a process the OOM killer ended, or
   * 137 when a shell inside reports such a child), 130 on an interrupt and
   * 1 when launching raises; when any set-up step fails, 1.
   */
  lemma RunExitCode(cfg: ContainerConfig, k: Kernel, g: Group, rootfs: Result<string, Error>, pid: int, launch: LaunchResult)
    ensures !SetUp(cfg, k, g, rootfs, pid) ==> RunReport(cfg, k, g, rootfs, pid, launch).code == 1
    ensures SetUp(cfg, k, g, rootfs, pid) ==>
      RunReport(cfg, k, g, rootfs, pid, launch).code == match launch
        case Exited(c) => c
        case Raised => 1
        case Interrupted => 130
  {
  }

  /** Without busybox on the host, `run` gives 1 and never launches anything. */
  lemma RunWithoutBusybox(cfg: ContainerConfig, k: Kernel, g: Group, host: Host, pid: int, launch: LaunchResult)
    requires forall p | p in BusyboxPaths :: p !in host.paths
    ensures CreateResult(host, cfg.name) == Err(BusyboxUnavailable)
    ensures RunReport(cfg, k, g, CreateResult(host, cfg.name), pid, launch).code == 1
    ensures forall e | e in RunReport(cfg, k, g, CreateResult(host, cfg.name), pid, launch).events :: !e.Launch?
  {
    ProvisioningNeedsBusybox(host);
    NoLaunchWithoutRootfs(cfg, k, g, CreateResult(host, cfg.name), pid, launch);
  }

  /** When the rootfs cannot be created, `run` gives 1 and never launches anything. */
  lemma NoLaunchWithoutRootfs(cfg: ContainerConfig, k: Kernel, g: Group, rootfs: Result<string, Error>, pid: int, launch: LaunchResult)
    requires rootfs.Err?
    ensures RunReport(cfg, k, g, rootfs, pid, launch).code == 1
    ensures forall e | e in RunReport(cfg, k, g, rootfs, pid, launch).events :: !e.Launch?
  {
    var created := CreateGroup(k, GroupPath(cfg.name), g, cfg.memoryMb, cfg.cpuPercent);
    var ev := RunReport(cfg, k, g, rootfs, pid, launch).events;
    if created.outcome.Fail? {
      assert ev == [CGroupCreate, CGroupCleanup, RootfsCleanup];
    } else {
      assert ev == [CGroupCreate, RootfsCreate, CGroupCleanup, RootfsCleanup];
    }
  }

  /**
   * Cleanup runs exactly once, after everything else, the cgroup before the
   * rootfs, whatever happens.
   */
  lemma CleanupOnceAndLast(cfg: ContainerConfig, k: Kernel, g: Group, rootfs: Result<string, Error>, pid: int, launch: LaunchResult)
    ensures var ev := RunReport(cfg, k, g, rootfs, pid, launch).events;
      && |ev| >= 2 && ev[|ev| - 2] == CGroupCleanup && ev[|ev| - 1] == RootfsCleanup
      && multiset(ev)[CGroupCleanup] == 1 && multiset(ev)[RootfsCleanup] == 1
  {
    var pre := Attempted(cfg, k, g, rootfs, pid, launch).events;
    AttemptedSetsUp(cfg, k, g, rootfs, pid, launch);
    assert !IsSetUpEvent(CGroupCleanup) && !IsSetUpEvent(RootfsCleanup);
    assert multiset(pre)[CGroupCleanup] == 0 && multiset(pre)[RootfsCleanup] == 0;
    assert multiset(pre + [CGroupCleanup, RootfsCleanup]) == multiset(pre) + multiset{CGroupCleanup, RootfsCleanup};
  }

  /**
   * The command is launched exactly when set-up succeeds, and then only after the
   * cgroup was created, the rootfs provisioned and the process enrolled, with the
   * rootfs that was created as the `chroot` target.
   */
  lemma LaunchAfterSetUp(cfg: ContainerConfig, k: Kernel, g: Group, rootfs: Result<string, Error>, pid: int, launch: LaunchResult)
    ensures (exists e | e in RunReport(cfg, k, g, rootfs, pid, launch).events :: e.Launch?) <==> SetUp(cfg, k, g, rootfs, pid)
    ensures SetUp(cfg, k, g, rootfs, pid) ==>
      RunReport(cfg, k, g, rootfs, pid, launch).events
        == [CGroupCreate, RootfsCreate, Enroll(pid), Launch(LaunchArgv(rootfs.value, cfg.command)), CGroupCleanup, RootfsCleanup]
  {
    var path := GroupPath(cfg.name);
    var created := CreateGroup(k, path, g, cfg.memoryMb, cfg.cpuPercent);
    var ev := RunReport(cfg, k, g, rootfs, pid, launch).events;
    if created.outcome.Fail? {
      assert ev == [CGroupCreate, CGroupCleanup, RootfsCleanup];
    } else if rootfs.Err? {
      assert ev == [CGroupCreate, RootfsCreate, CGroupCleanup, RootfsCleanup];
    } else if EnrollProcess(k, path, created.group, pid).outcome.Fail? {
      assert ev == [CGroupCreate, RootfsCreate, Enroll(pid), CGroupCleanup, RootfsCleanup];
    } else {
      var argv := LaunchArgv(rootfs.value, cfg.command);
      assert ev == [CGroupCreate, RootfsCreate, Enroll(pid), Launch(argv), CGroupCleanup, RootfsCleanup];
      assert ev[3] == Launch(argv);
    }
  }

  /** The `chroot` target of a launch from a real `create` is the temporary directory `mkdtemp` made. */
  lemma LaunchUsesCreatedRootfs(cfg: ContainerConfig, k: Kernel, g: Group, host: Host, pid: int, launch: LaunchResult)
    requires SetUp(cfg, k, g, CreateResult(host, cfg.name), pid)
    ensures Launch(LaunchArgv(TempPath(host, cfg.name), cfg.command)) in RunReport(cfg, k, g, CreateResult(host, cfg.name), pid, launch).events
  {
    LaunchAfterSetUp(cfg, k, g, CreateResult(host, cfg.name), pid, launch);
  }

  /**
   * Once the process has been enrolled, the cgroup survives cleanup: the
   * orchestrator is still in it when `rmdir` runs.
   */
  lemma EnrolledRunLeavesGroup(cfg: ContainerConfig, k: Kernel, g: Group, rootfs: Result<string, Error>, pid: int, launch: LaunchResult)
    requires SetUp(cfg, k, g, rootfs, pid)
    ensures RunReport(cfg, k, g, rootfs, pid, launch).group.present
    ensures pid in RunReport(cfg, k, g, rootfs, pid, launch).group.members
  {
    var path := GroupPath(cfg.name);
    var created := CreateGroup(k, path, g, cfg.memoryMb, cfg.cpuPercent);
    EnrolledGroupOutlivesCleanup(k, path, created.group, pid);
  }

  // ---------------------------------------------------------------------------
  // The container
  // ---------------------------------------------------------------------------

  class Container {
    const config: ContainerConfig
    const cgroup: CGroupManager
    const rootfsMgr: RootFSManager
    /** What `run` has done so far. */
    ghost var events: seq<Event>

    ghost predicate Valid()
      reads this, rootfsMgr
    {
      && rootfsMgr.Valid()
      && cgroup.path == GroupPath(config.name)
      && rootfsMgr.name == config.name
    }

    /** What the rootfs manager's `create` returns on this container's host. */
    function Provisioned(): Result<string, Error> {
      CreateResult(rootfsMgr.host, config.name)
    }

    constructor (config: ContainerConfig, kernel: Kernel, host: Host)
      ensures Valid() && this.config == config && events == []
      ensures cgroup.kernel == kernel && cgroup.group == InitialGroup(kernel)
      ensures rootfsMgr.host == host && rootfsMgr.rootfs == None && !rootfsMgr.present && rootfsMgr.tree == map[]
      ensures fresh(cgroup) && fresh(rootfsMgr)
    {
      this.config := config;
      cgroup := new CGroupManager(config.name, kernel);
      rootfsMgr := new RootFSManager(config.name, host);
      events := [];
    }

    /**
     * `run()` for an orchestrator with process id `pid`, when the launched
     * command ends as `launch` says.
     */
    method Run(pid: int, launch: LaunchResult) returns (code: int)
      requires Valid()
      modifies this, cgroup, rootfsMgr
      ensures Valid()
      ensures var report := RunReport(config, cgroup.kernel, old(cgroup.group), Provisioned(), pid, launch);
        && code == report.code
        && events == old(events) + report.events
        && cgroup.group == report.group
      ensures !rootfsMgr.present && rootfsMgr.tree == map[]
      ensures rootfsMgr.rootfs ==
        if CreateGroup(cgroup.kernel, cgroup.path, old(cgroup.group), config.memoryMb, config.cpuPercent).outcome.Pass?
        then Some(TempPath(rootfsMgr.host, config.name)) else old(rootfsMgr.rootfs)
    {
      ghost var start := events;
      ghost var a := Attempted(config, cgroup.kernel, cgroup.group, Provisioned(), pid, launch);
      code := Attempt(pid, launch);
      Cleanup();
      assert events == start + (a.events + [CGroupCleanup, RootfsCleanup]);
    }

    /**
     * The `try` block of `run`: set-up, then the launch; an exception ends it
     * with 1.  The rootfs is provisioned once the cgroup is in place, and is
     * left untouched otherwise.
     */
    method Attempt(pid: int, launch: LaunchResult) returns (code: int)
      requires Valid()
      modifies this, cgroup`group, rootfsMgr
      ensures Valid()
      ensures var a := Attempted(config, cgroup.kernel, old(cgroup.group), Provisioned(), pid, launch);
        && code == a.code
        && events == old(events) + a.events
        && cgroup.group == a.group
      ensures if CreateGroup(cgroup.kernel, cgroup.path, old(cgroup.group), config.memoryMb, config.cpuPercent).outcome.Pass? then
          && rootfsMgr.present
          && rootfsMgr.rootfs == Some(TempPath(rootfsMgr.host, config.name))
          && rootfsMgr.tree == Provisioning(rootfsMgr.host).tree
        else unchanged(rootfsMgr)
    {
      ghost var start := events;
      ghost var created := CreateGroup(cgroup.kernel, cgroup.path, cgroup.group, config.memoryMb, config.cpuPercent);
      events := start + [CGroupCreate];
      var outcome := cgroup.Create(config.memoryMb, config.cpuPercent);
      if outcome.Fail? {
        return 1;
      }
      events := start + [CGroupCreate, RootfsCreate];
      var rootfs := CreateRootfs();
      if rootfs.Err? {
        return 1;
      }
      events := start + [CGroupCreate, RootfsCreate, Enroll(pid)];
      ghost var enrolled := EnrollProcess(cgroup.kernel, cgroup.path, created.group, pid);
      outcome := cgroup.AddProcess(pid);
      if outcome.Fail? {
        return 1;
      }
      var argv := LaunchArgv(rootfs.value, config.command);
      events := start + [CGroupCreate, RootfsCreate, Enroll(pid), Launch(argv)];
      code := LaunchCode(launch);
    }

    /** The rootfs manager's `create`, as `run` calls it. */
    method CreateRootfs() returns (r: Result<string, Error>)
      requires Valid()
      modifies rootfsMgr
      ensures Valid() && r == Provisioned()
      ensures rootfsMgr.present && rootfsMgr.rootfs == Some(TempPath(rootfsMgr.host, config.name))
      ensures rootfsMgr.tree == Provisioning(rootfsMgr.host).tree
    {
      r := rootfsMgr.Create();
    }

    /** `_cleanup()`: the cgroup, then the rootfs; neither step raises. */
    method Cleanup()
      requires Valid()
      modifies this, cgroup`group, rootfsMgr`present, rootfsMgr`tree
      ensures Valid() && events == old(events) + [CGroupCleanup, RootfsCleanup]
      ensures cgroup.group == RemoveGroup(old(cgroup.group))
      ensures !rootfsMgr.present && rootfsMgr.tree == map[] && rootfsMgr.rootfs == old(rootfsMgr.rootfs)
    {
      events := events + [CGroupCleanup];
      cgroup.Cleanup();
      events := events + [RootfsCleanup];
      rootfsMgr.Cleanup();
    }
  }
}
