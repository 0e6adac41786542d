/** The global state of the sketch and one pass of its `loop()`: record the
    scaled sample in the history ring, walk the columns of the strip chart,
    write the data row, and poll the button for up to 100 slices. */
module Sketch {
  import opened Scaler
  import opened StripChart
  import opened LogSession

  /** One 10 ms slice of the idle wait: whether `BtnA.wasClicked()` reported
      a click, and what `millis()` returned right after. */
  datatype Slice = Slice(clicked: bool, now: int)

  function Clicks(slices: seq<Slice>): (c: seq<bool>)
    ensures |c| == |slices|
    ensures forall i :: 0 <= i < |slices| ==> c[i] == slices[i].clicked
  {
    seq(|slices|, i requires 0 <= i < |slices| => slices[i].clicked)
  }

  /** Inputs a poll phase can be given: one slice per iteration, each with a
      `uint32_t` clock reading. */
  predicate PollInputs(slices: seq<Slice>)
  {
    |slices| == POLL_SLICES && forall i :: 0 <= i < |slices| ==> IsUint32(slices[i].now)
  }

  /** The sketch's globals: `val` and `px` (the history ring and its write
      cursor), `fLogging`, `t0` and the calls made on `logFile`. */
  class H2SLogger {
    var val: array<int>
    var px: int
    var fLogging: bool
    var t0: int
    var log: seq<LogEvent>
    /** Every scaled sample recorded since power-on, oldest first. */
    ghost var history: seq<int>

    ghost function State(): Session
      reads this
    {
      Session(fLogging, t0, log)
    }

    /** The ring holds the window of the history, seen from the column
        traversal that starts at `px`; every slot is a possible result of the
        scaler; the logging state keeps its invariant. */
    ghost predicate Valid()
      reads this, val
    {
      val.Length == X && 0 <= px < X
      && (forall x :: 0 <= x < X ==> val[SlotAt(px, x)] == Window(X, history)[x])
      && (forall i :: 0 <= i < X ==> 0 <= val[i] <= MAX_CON_H2S)
      && Invariant(State())
    }

    /** Power-on: the globals are zero-initialised and logging is stopped. */
    constructor ()
      ensures Valid() && fresh(val)
      ensures px == 0 && history == [] && State() == Initial
      ensures forall i :: 0 <= i < X ==> val[i] == 0
    {
      val := new int[X](_ => 0);
      px := 0;
      fLogging := false;
      t0 := 0;
      log := [];
      history := [];
      InitialInvariant();
    }

    /** Stores the scaled reading at the write cursor and advances the cursor
        modulo X. */
    method Record(reading: real)
      requires Valid()
      modifies this`px, this`history, val
      ensures Valid()
      ensures val[..] == old(val[..])[old(px) := ConvH2S(reading)]
      ensures px == (old(px) + 1) % X
      ensures history == old(history) + [ConvH2S(reading)]
    {
      ghost var q := px;
      ghost var w := Window(X, history);
      var v := ConvH2S(reading);
      val[px] := v;
      px := (px + 1) % X;
      history := history + [v];
      WindowSnoc(X, old(history), v);
      forall x | 0 <= x < X
        ensures val[SlotAt(px, x)] == Window(X, history)[x]
      {
        AdvanceShiftsColumns(q, x);
      }
    }

    /** The idle wait: up to 100 slices, each polling the button. The first
        click toggles the session and sets the counter to 100, which ends the
        phase after that slice. */
    method PollPhase(slices: seq<Slice>) returns (ran: nat)
      requires Valid() && PollInputs(slices)
      modifies this`fLogging, this`t0, this`log
      ensures Valid()
      ensures FirstClick(Clicks(slices)) < POLL_SLICES ==>
                ran == FirstClick(Clicks(slices)) + 1
                && State() == Click(old(State()), slices[FirstClick(Clicks(slices))].now)
      ensures FirstClick(Clicks(slices)) == POLL_SLICES ==>
                ran == POLL_SLICES && State() == old(State())
    {
      ghost var k := FirstClick(Clicks(slices));
      var i := 0;
      ran := 0;
      while i < POLL_SLICES
        invariant 0 <= i <= POLL_SLICES + 1
        invariant Valid()
        invariant i <= POLL_SLICES ==>
                    ran == i && State() == old(State()) && forall j :: 0 <= j < i ==> !slices[j].clicked
        invariant i == POLL_SLICES + 1 ==>
                    k < POLL_SLICES && ran == k + 1 && State() == Click(old(State()), slices[k].now)
      {
        ran := ran + 1;
        if slices[i].clicked {
          assert k == i;
          ClickKeepsInvariant(State(), slices[i].now);
          if fLogging == false {
            t0 := slices[i].now;
            fLogging := true;
            log := log + [Opened(LOG_PATH), Line(Header(HEADER_TEXT))];
            i := POLL_SLICES;
          } else {
            log := log + [Closed];
            fLogging := false;
            i := POLL_SLICES;
          }
        }
        i := i + 1;
      }
    }

    /** The column loop of `loop()` on the current cursor: column x shows
        the x-th oldest entry of the window, the newest in the last column. */
    method Redraw() returns (cols: seq<Column>)
      requires Valid()
      ensures |cols| == X
      ensures forall x :: 0 <= x < X ==> cols[x].slot == SlotAt(px, x)
      ensures forall x :: 0 <= x < X ==> val[cols[x].slot] == Window(X, history)[x]
      ensures forall x :: 0 <= x < X ==> cols[x].steps == ColumnSteps(x)
      ensures history != [] ==> val[cols[X - 1].slot] == history[|history| - 1]
    {
      cols := Traverse(px);
      if history != [] {
        WindowAt(X, history, 0);
      }
    }

    /** Appends the data row (the wrapped elapsed time since t0 and both
        readings) on every cycle, whatever the flag. */
    method WriteDataRow(now: int, h2s: real, temp: real)
      requires Valid() && IsUint32(now)
      modifies this`log
      ensures Valid()
      ensures State() == WriteRow(old(State()), now, h2s, temp)
    {
      WriteRowKeepsInvariant(State(), now, h2s, temp);
      var tm := Elapsed(now, t0);
      log := log + [Line(Data(tm, h2s, temp))];
    }

    /** One pass of `loop()` after the sensor was read: record the sample,
        walk the chart columns, write the data row and poll the button. */
    method Cycle(reading: real, temp: real, now: int, slices: seq<Slice>)
      returns (cols: seq<Column>, status: string, ran: nat)
      requires Valid() && IsUint32(now) && PollInputs(slices)
      modifies this, val
      ensures Valid() && val == old(val)
      ensures history == old(history) + [ConvH2S(reading)]
      ensures val[..] == old(val[..])[old(px) := ConvH2S(reading)]
      ensures px == (old(px) + 1) % X
      ensures |cols| == X
      ensures forall x :: 0 <= x < X ==> cols[x].slot == SlotAt(px, x)
      ensures forall x :: 0 <= x < X ==> val[cols[x].slot] == Window(X, history)[x]
      ensures val[cols[X - 1].slot] == ConvH2S(reading)
      ensures forall x :: 0 <= x < X ==> cols[x].steps == ColumnSteps(x)
      ensures status == StatusText(fLogging)
      ensures FirstClick(Clicks(slices)) < POLL_SLICES ==>
                ran == FirstClick(Clicks(slices)) + 1
                && State() == Click(WriteRow(old(State()), now, reading, temp),
                                    slices[FirstClick(Clicks(slices))].now)
      ensures FirstClick(Clicks(slices)) == POLL_SLICES ==>
                ran == POLL_SLICES && State() == WriteRow(old(State()), now, reading, temp)
    {
      Record(reading);
      cols := Redraw();
      status := StatusText(fLogging);
      WriteDataRow(now, reading, temp);
      ran := PollPhase(slices);
      // ShowStatus runs again after a handled click
      status := StatusText(fLogging);
    }
  }
}
