/** The persisted record of one checkout, and the tri-state check of a process identity. */
module Records {
  import opened Options

  datatype Backing = Primary | Worktree

  datatype Status =
    | Created | SetupFailed | Adopted | Ready | Running | Exited | Stopped | StopIncomplete | Orphaned

  datatype StopReason =
    | IdentityUnverified | Survivors | TreeTruncated | JobListTruncated
    | HandleScanExhausted | OrphanScanIncomplete | ConcurrentStartRace

  datatype Record = Record(
    backing: Backing,
    repoRoot: string,
    path: string,
    branch: Option<string>,
    ports: map<string, int>,
    pids: map<string, int>,
    variants: map<string, string>,
    startTimes: map<string, real>,
    jobNames: map<string, string>,
    status: Status,
    stopDetail: Option<StopReason>,
    teardownRan: bool)

  /** dict.get */
  function Get<K, V>(m: map<K, V>, k: K): Option<V> {
    if k in m then Some(m[k]) else None
  }

  const SEP := ':'

  function Key(id: string, slot: string): string {
    id + [SEP] + slot
  }

  /** The text before the first separator; the whole key if there is none. */
  function Owner(key: string): string {
    if key == [] || key[0] == SEP then [] else [key[0]] + Owner(key[1..])
  }

  datatype Verdict = Confirmed | Refuted | Unverifiable

  /** What the operating system says about process ids; a birth time may be unreadable. */
  datatype Processes = Processes(alive: int -> bool, born: int -> Option<real>)

  /** `_pid_status`. */
  function PidStatus(os: Processes, pid: int, expected: Option<real>): (v: Verdict)
    ensures v == Confirmed <==> os.alive(pid) && expected.Some? && os.born(pid) == expected
    ensures v == Unverifiable <==> os.alive(pid) && (expected.None? || os.born(pid).None?)
  {
    if !os.alive(pid) then Refuted
    else if expected.None? then Unverifiable
    else
      match os.born(pid)
      case None => Unverifiable
      case Some(born) => if born == expected.value then Confirmed else Refuted
  }

  /** The two files: tracked records and allocated ports. */
  class StateFiles {
    var records: map<string, Record>
    var ports: map<string, int>

    constructor (records: map<string, Record>, ports: map<string, int>)
      ensures this.records == records && this.ports == ports
    {
      this.records := records;
      this.ports := ports;
    }
  }
}
