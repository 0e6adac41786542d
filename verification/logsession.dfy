/** The logging toggle of the sketch as pure functions: the state `fLogging`,
    `t0` and the log file, the effect of a button click, the data row written
    every cycle, the elapsed-time arithmetic and the status text. */
module LogSession {

  /** `millis()` and `t0` are `uint32_t`. */
  const UINT32_MOD: int := 0x1_0000_0000

  /** Slices of the idle wait, polled for a click once each. */
  const POLL_SLICES: int := 100

  /** Text of the header row opening each logging session. */
  const HEADER_TEXT: string := "time[ms],H2S,temp"

  /** The log file's path. */
  const LOG_PATH: string := "/log.csv"

  /** A row written through `logFile.printf`. Readings stay abstract reals;
      their `%f` formatting is not modelled. */
  datatype Row = Header(text: string) | Data(elapsedMs: int, h2s: real, temp: real)

  /** One call made on `logFile`, in program order: opening a path for
      appending, printing one row, or closing the file. */
  datatype LogEvent = Opened(path: string) | Line(row: Row) | Closed

  /** The logging state: `fLogging`, `t0` and the calls made on `logFile`. */
  datatype Session = Session(logging: bool, t0: int, log: seq<LogEvent>)

  /** The state at power-on: not logging, `t0 == 0`, no file opened yet. */
  const Initial: Session := Session(false, 0, [])

  predicate IsUint32(n: int)
  {
    0 <= n < UINT32_MOD
  }

  /** Whether `logFile` refers to an open file after the calls in `log`:
      the last open or close call decides. */
  function IsOpen(log: seq<LogEvent>): bool
  {
    if log == [] then false
    else match log[|log| - 1]
      case Opened(_) => true
      case Closed => false
      case Line(_) => IsOpen(log[..|log| - 1])
  }

  /** The rows that actually reach the file: a row written while `logFile`
      is not open (before the first click, or after a close) is dropped. */
  function Persisted(log: seq<LogEvent>): seq<Row>
  {
    if log == [] then []
    else
      var init := log[..|log| - 1];
      match log[|log| - 1]
      case Line(r) => if IsOpen(init) then Persisted(init) + [r] else Persisted(init)
      case _ => Persisted(init)
  }

  /** The session invariant: the flag is set exactly when the file is open. */
  predicate Consistent(s: Session)
  {
    s.logging == IsOpen(s.log) && IsUint32(s.t0)
  }

  /** `millis() - t0` in `uint32_t` arithmetic: wraps around modulo 2^32. */
  function Elapsed(now: int, t0: int): (tm: int)
    requires IsUint32(now) && IsUint32(t0)
    ensures IsUint32(tm)
    ensures (t0 + tm) % UINT32_MOD == now
    ensures t0 <= now ==> tm == now - t0
    ensures now < t0 ==> tm == now - t0 + UINT32_MOD
  {
    (now - t0) % UINT32_MOD
  }

  /** A handled click. While stopped: record `t0`, set the flag, open the
      file `/log.csv` in append mode and write the header row. While logging: close the
      file and clear the flag (`t0` keeps its value). */
  function Click(s: Session, now: int): (r: Session)
    ensures r.logging == !s.logging
    ensures !s.logging ==> r.t0 == now && r.log == s.log + [Opened(LOG_PATH), Line(Header(HEADER_TEXT))]
    ensures s.logging ==> r.t0 == s.t0 && r.log == s.log + [Closed]
  {
    if !s.logging then Session(true, now, s.log + [Opened(LOG_PATH), Line(Header(HEADER_TEXT))])
    else Session(false, s.t0, s.log + [Closed])
  }

  /** The data row written once per cycle, whatever the flag says. */
  function WriteRow(s: Session, now: int, h2s: real, temp: real): (r: Session)
    requires IsUint32(now) && IsUint32(s.t0)
    ensures r.logging == s.logging && r.t0 == s.t0
    ensures |r.log| == |s.log| + 1 && r.log[..|s.log|] == s.log
    ensures r.log[|s.log|] == Line(Data(Elapsed(now, s.t0), h2s, temp))
  {
    s.(log := s.log + [Line(Data(Elapsed(now, s.t0), h2s, temp))])
  }

  /** The text `ShowStatus` prints for the flag. */
  function StatusText(logging: bool): (t: string)
    ensures t == "Logging" <==> logging
    ensures t == "Stopped" <==> !logging
  {
    if logging then "Logging" else "Stopped"
  }

  /** Index of the first slice in which a click was seen, or `|clicks|`. */
  function FirstClick(clicks: seq<bool>): (k: nat)
    ensures k <= |clicks|
    ensures forall i :: 0 <= i < k ==> !clicks[i]
    ensures k < |clicks| ==> clicks[k]
  {
    if clicks == [] then 0
    else if clicks[0] then 0
    else 1 + FirstClick(clicks[1..])
  }

  /** Two clicks restore the flag, and the file is again in the state it
      was in before them. */
  lemma ClickTwiceRestoresFlag(s: Session, a: int, b: int)
    requires Consistent(s)
    ensures Click(Click(s, a), b).logging == s.logging
    ensures IsOpen(Click(Click(s, a), b).log) == IsOpen(s.log)
  {
  }

  /** A click keeps the flag in step with the file. */
  lemma ClickConsistent(s: Session, now: int)
    requires Consistent(s) && IsUint32(now)
    ensures Consistent(Click(s, now))
  {
  }

  /** Writing a data row keeps the flag in step with the file. */
  lemma WriteRowConsistent(s: Session, now: int, h2s: real, temp: real)
    requires Consistent(s) && IsUint32(now)
    ensures Consistent(WriteRow(s, now, h2s, temp))
  {
  }

  /** A click while stopped starts a session in the file with the header
      row; a click while logging adds nothing to the file. */
  lemma ClickPersists(s: Session, now: int)
    ensures !s.logging ==> Persisted(Click(s, now).log) == Persisted(s.log) + [Header(HEADER_TEXT)]
    ensures s.logging ==> Persisted(Click(s, now).log) == Persisted(s.log)
  {
    var r := Click(s, now);
    if !s.logging {
      assert r.log[..|r.log| - 1] == s.log + [Opened(LOG_PATH)];
      assert (s.log + [Opened(LOG_PATH)])[..|s.log|] == s.log;
    } else {
      assert r.log[..|r.log| - 1] == s.log;
    }
  }

  /** The row written each cycle reaches the file exactly when logging. */
  lemma WriteRowPersists(s: Session, now: int, h2s: real, temp: real)
    requires Consistent(s) && IsUint32(now)
    ensures s.logging ==> Persisted(WriteRow(s, now, h2s, temp).log)
                          == Persisted(s.log) + [Data(Elapsed(now, s.t0), h2s, temp)]
    ensures !s.logging ==> Persisted(WriteRow(s, now, h2s, temp).log) == Persisted(s.log)
  {
  }

  /** Nothing ever reaches the file before the first click. */
  lemma {:induction false} NothingPersistedWhileNeverOpened(log: seq<LogEvent>)
    requires forall i :: 0 <= i < |log| ==> log[i].Line?
    ensures !IsOpen(log) && Persisted(log) == []
  {
    if log != [] {
      NothingPersistedWhileNeverOpened(log[..|log| - 1]);
    }
  }

  /** What every reachable state satisfies beyond `Consistent`: while
      logging the file has received at least the header, and the first row
      that ever reached the file is a header row. */
  predicate Invariant(s: Session)
  {
    Consistent(s)
    && (s.logging ==> Persisted(s.log) != [])
    && (Persisted(s.log) != [] ==> Persisted(s.log)[0] == Header(HEADER_TEXT))
  }

  lemma InitialInvariant()
    ensures Invariant(Initial)
  {
  }

  /** A click keeps the invariant. */
  lemma ClickKeepsInvariant(s: Session, now: int)
    requires Invariant(s) && IsUint32(now)
    ensures Invariant(Click(s, now))
  {
    ClickConsistent(s, now);
    ClickPersists(s, now);
  }

  /** The per-cycle data row keeps the invariant. */
  lemma WriteRowKeepsInvariant(s: Session, now: int, h2s: real, temp: real)
    requires Invariant(s) && IsUint32(now)
    ensures Invariant(WriteRow(s, now, h2s, temp))
  {
  }
}
