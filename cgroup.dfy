/**
 * The cgroup v2 manager (`CGroupManager`): a directory under /sys/fs/cgroup
 * holding a memory and a CPU limit, joined by the orchestrating process and
 * removed at the end.
 *
 * The kernel is seen through a `Kernel` value: whether the group already
 * exists, whether it may be created, and which writes to its control files it
 * takes.  Each operation is given as a function on the group's state (`Group`),
 * and the methods of `CGroupManager` are proved to follow those functions.
 */
module CGroups {
  import opened Wrappers
  import opened PyText

  const CGroupRoot: string := "/sys/fs/cgroup/"
  const MemoryMax: string := "memory.max"
  const CpuMax: string := "cpu.max"
  const Procs: string := "cgroup.procs"
  /** The CPU accounting period written to `cpu.max`, in microseconds. */
  const CpuPeriod: int := 100000

  /** What the manager can observe of the kernel's cgroup filesystem. */
  datatype Kernel = Kernel(
    groupExists: bool,                  // the group's directory is already there
    residents: set<int>,                // the processes already in it, if so
    canMkdir: bool,                     // whether creating the directory is allowed
    accepts: (string, string) -> bool)  // whether a write of this text to this control file is taken

  /**
   * The group as the manager sees it: whether its directory exists, the limits
   * this manager has written to it, and the processes in it.
   */
  datatype Group = Group(present: bool, limits: map<string, string>, members: set<int>)

  /** An `OSError` from a cgroup file operation, with the path it concerns. */
  datatype CGroupError = OSError(path: string)

  datatype GroupStep = GroupStep(group: Group, outcome: Outcome<CGroupError>)

  function GroupPath(name: string): string { CGroupRoot + name }

  /** The group as it stands before the manager touches it. */
  function InitialGroup(k: Kernel): Group {
    if k.groupExists then Group(true, map[], k.residents) else Group(false, map[], {})
  }

  // ---------------------------------------------------------------------------
  // The limits as text
  // ---------------------------------------------------------------------------

  /** What goes into `memory.max`: the limit in bytes, in decimal. */
  function MemoryLimitText(memoryMb: int): string {
    IntToDecimal(memoryMb * 1024 * 1024)
  }

  /** What goes into `cpu.max`: the quota (a thousandth of the period per percent) and the period. */
  function CpuLimitText(cpuPercent: int): string {
    IntToDecimal(cpuPercent * 1000) + " 100000"
  }

  /** How `cpu.max` reads: two decimal numbers separated by one space. */
  function ParseCpuMax(s: string): Option<(int, int)> {
    var fields := SplitOn(s, " ");
    if |fields| == 2 && ParseInt(fields[0]).Some? && ParseInt(fields[1]).Some? then
      Some((ParseInt(fields[0]).value, ParseInt(fields[1]).value))
    else None
  }

  /** `memory.max` receives exactly `memory_mb` mebibytes, in bytes. */
  lemma MemoryLimitDenotes(memoryMb: int)
    ensures ParseInt(MemoryLimitText(memoryMb)) == Some(memoryMb * 1048576)
  {
    DecimalRoundTrip(memoryMb * 1024 * 1024);
  }

  /** `cpu.max` receives a quota of `cpu_percent * 1000` microseconds per 100000-microsecond period. */
  lemma CpuLimitDenotes(cpuPercent: int)
    ensures ParseCpuMax(CpuLimitText(cpuPercent)) == Some((cpuPercent * 1000, CpuPeriod))
  {
    var quota := IntToDecimal(cpuPercent * 1000);
    var fields := [quota, "100000"];
    assert CpuLimitText(cpuPercent) == Join(fields, " ");
    assert SplitOn(CpuLimitText(cpuPercent), " ") == fields by {
      ContainsChar(quota, ' ');
      PeriodHasNoSpace();
      SplitOnJoin(fields, " ");
    }
    DecimalRoundTrip(cpuPercent * 1000);
    PeriodDenotes();
  }

  lemma PeriodHasNoSpace()
    ensures !Contains("100000", " ")
  {
    ContainsChar("100000", ' ');
  }

  lemma PeriodDenotes()
    ensures ParseInt("100000") == Some(CpuPeriod)
  {
    DecimalRoundTrip(CpuPeriod);
    assert IntToDecimal(CpuPeriod) == "100000";
  }

  // ---------------------------------------------------------------------------
  // The operations
  // ---------------------------------------------------------------------------

  /**
   * `create`: `mkdir(exist_ok=True)` of the group's directory, then the write of
   * `memory.max`, then that of `cpu.max`, stopping at the first error.
   */
  function CreateGroup(k: Kernel, path: string, g: Group, memoryMb: int, cpuPercent: int): GroupStep {
    if !g.present && !k.canMkdir then GroupStep(g, Fail(OSError(path)))
    else
      var g1 := g.(present := true);
      var memory := MemoryLimitText(memoryMb);
      if !k.accepts(MemoryMax, memory) then GroupStep(g1, Fail(OSError(path + "/" + MemoryMax)))
      else
        var g2 := g1.(limits := g1.limits[MemoryMax := memory]);
        var cpu := CpuLimitText(cpuPercent);
        if !k.accepts(CpuMax, cpu) then GroupStep(g2, Fail(OSError(path + "/" + CpuMax)))
        else GroupStep(g2.(limits := g2.limits[CpuMax := cpu]), Pass)
  }

  /** `add_process`: the write of the pid to `cgroup.procs`, which moves that process into the group. */
  function EnrollProcess(k: Kernel, path: string, g: Group, pid: int): GroupStep {
    if !g.present || !k.accepts(Procs, IntToDecimal(pid)) then GroupStep(g, Fail(OSError(path + "/" + Procs)))
    else GroupStep(g.(members := g.members + {pid}), Pass)
  }

  /**
   * `cleanup`: `rmdir` of the group's directory, which the kernel refuses while
   * a process is in the group (or when there is no directory); the error is
   * swallowed, so there is no failure to report.
   */
  function RemoveGroup(g: Group): Group {
    if g.present && g.members == {} then Group(false, map[], {}) else g
  }

  /**
   * `create` completes exactly when the directory exists or may be made and the
   * kernel takes both limits; it then holds both limits, and it never changes
   * the processes in the group.
   */
  lemma CreateGroupSpec(k: Kernel, path: string, g: Group, memoryMb: int, cpuPercent: int)
    ensures var r := CreateGroup(k, path, g, memoryMb, cpuPercent);
      && (r.outcome.Pass? <==> (g.present || k.canMkdir)
                               && k.accepts(MemoryMax, MemoryLimitText(memoryMb))
                               && k.accepts(CpuMax, CpuLimitText(cpuPercent)))
      && r.group.members == g.members
      && (r.group.present <==> g.present || k.canMkdir)
      && (r.outcome.Pass? ==> MemoryMax in r.group.limits && CpuMax in r.group.limits
                              && ParseInt(r.group.limits[MemoryMax]) == Some(memoryMb * 1048576)
                              && ParseCpuMax(r.group.limits[CpuMax]) == Some((cpuPercent * 1000, CpuPeriod)))
      && (forall f | f in g.limits && f != MemoryMax && f != CpuMax :: f in r.group.limits && r.group.limits[f] == g.limits[f])
  {
    MemoryLimitDenotes(memoryMb);
    CpuLimitDenotes(cpuPercent);
  }

  /**
   * Enrolling succeeds exactly when the group exists and the kernel takes the
   * write; it then adds the pid and no other process, and it never touches the
   * limits or the directory.
   */
  lemma EnrollProcessSpec(k: Kernel, path: string, g: Group, pid: int)
    ensures var r := EnrollProcess(k, path, g, pid);
      && (r.outcome.Pass? <==> g.present && k.accepts(Procs, IntToDecimal(pid)))
      && (r.outcome.Pass? ==> pid in r.group.members && r.group.members - {pid} == g.members - {pid})
      && (r.outcome.Fail? ==> r.group.members == g.members)
      && r.group.limits == g.limits && r.group.present == g.present
  {
  }

  /** After cleanup the group is gone exactly when it had no processes left; a second cleanup changes nothing. */
  lemma RemoveGroupSpec(g: Group)
    ensures !RemoveGroup(g).present <==> !g.present || g.members == {}
    ensures RemoveGroup(g).present ==> RemoveGroup(g) == g
    ensures RemoveGroup(RemoveGroup(g)) == RemoveGroup(g)
  {
  }

  /**
   * The process that enrolled itself is still alive when it runs cleanup, so a
   * group it joined is never removed: enrolling dooms the `rmdir`.
   */
  lemma EnrolledGroupOutlivesCleanup(k: Kernel, path: string, g: Group, pid: int)
    requires EnrollProcess(k, path, g, pid).outcome.Pass?
    ensures RemoveGroup(EnrollProcess(k, path, g, pid).group).present
    ensures pid in RemoveGroup(EnrollProcess(k, path, g, pid).group).members
  {
  }

  // ---------------------------------------------------------------------------
  // The manager
  // ---------------------------------------------------------------------------

  class CGroupManager {
    const name: string
    const path: string
    const kernel: Kernel
    var group: Group

    constructor (name: string, kernel: Kernel)
      ensures this.name == name && path == GroupPath(name) && this.kernel == kernel
      ensures group == InitialGroup(kernel)
    {
      this.name := name;
      path := GroupPath(name);
      this.kernel := kernel;
      group := InitialGroup(kernel);
    }

    /** `create(memory_mb, cpu_percent)`. */
    method Create(memoryMb: int, cpuPercent: int) returns (outcome: Outcome<CGroupError>)
      modifies this`group
      ensures GroupStep(group, outcome) == CreateGroup(kernel, path, old(group), memoryMb, cpuPercent)
    {
      if !group.present {
        if !kernel.canMkdir {
          return Fail(OSError(path));
        }
        group := group.(present := true);
      }
      var memory := MemoryLimitText(memoryMb);
      if !kernel.accepts(MemoryMax, memory) {
        return Fail(OSError(path + "/" + MemoryMax));
      }
      group := group.(limits := group.limits[MemoryMax := memory]);
      var cpu := CpuLimitText(cpuPercent);
      if !kernel.accepts(CpuMax, cpu) {
        return Fail(OSError(path + "/" + CpuMax));
      }
      group := group.(limits := group.limits[CpuMax := cpu]);
      return Pass;
    }

    /** `add_process(pid)`. */
    method AddProcess(pid: int) returns (outcome: Outcome<CGroupError>)
      modifies this`group
      ensures GroupStep(group, outcome) == EnrollProcess(kernel, path, old(group), pid)
    {
      if !group.present || !kernel.accepts(Procs, IntToDecimal(pid)) {
        return Fail(OSError(path + "/" + Procs));
      }
      group := group.(members := group.members + {pid});
      return Pass;
    }

    /** `cleanup()`: never fails. */
    method Cleanup()
      modifies this`group
      ensures group == RemoveGroup(old(group))
    {
      if group.present && group.members == {} {
        group := Group(false, map[], {});
      }
    }
  }
}
