/** The I2C transport the drivers talk to, and the register protocol they share.

    In the drivers the transport is the character device `/dev/i2c-N`, opened
    unbuffered and bound to one slave address; every driver step is a `write`
    of a few bytes (a register address, or a register address and a value)
    or a `read` of a few bytes. Here the device is a `Bus` object: it logs
    every write, every read and every sleep, in order, and serves reads from
    a finite script of bytes that the device would answer with. When the
    script runs dry the read fails with `Exhausted`; this stands for a device
    that never answers (the drivers' poll loops have no bound of their own).

    Each driver method is specified by a `Trace`: a function of the script
    that gives the events the method logs, the script left over and the
    result. The lemmas in this module describe the two traces every driver
    uses: reading registers one at a time, and polling a status register
    until a ready condition holds.
 */
module I2c {

  datatype Option<+T> = None | Some(value: T)

  /** What can go wrong in a driver operation. */
  datatype Error =
    | Exhausted                      // the device supplied no byte where one was read
    | UnexpectedDevice               // the identity register did not hold the expected value
    | MissingAttribute(name: string) // a Python attribute lookup failed (AttributeError)

  datatype Result<+T> = Ok(value: T) | Err(error: Error)

  /** One thing a driver did on the bus: wrote bytes, read bytes, or slept
      for a number of milliseconds. */
  datatype Event = Wrote(bytes: seq<bv8>) | Got(bytes: seq<bv8>) | Slept(ms: nat)

  /** The effect of one driver operation, as a function of the script it
      started on: the events it logs, the script left after it, its result. */
  datatype Trace<+T> = Trace(events: seq<Event>, rest: seq<bv8>, result: Result<T>)

  /** A scripted device handle. */
  class Bus {
    var log: seq<Event>
    var script: seq<bv8>

    constructor (script: seq<bv8>)
      ensures log == [] && this.script == script
    {
      log := [];
      this.script := script;
    }

    /** A write transaction; the transport is not modelled as failing. */
    method Write(bytes: seq<bv8>)
      modifies this
      ensures log == old(log) + [Wrote(bytes)]
      ensures script == old(script)
    {
      log := log + [Wrote(bytes)];
    }

    /** A read transaction of `n` bytes, served from the front of the script. */
    method Read(n: nat) returns (r: Option<seq<bv8>>)
      modifies this
      ensures n <= |old(script)| ==>
                r == Some(old(script)[..n]) && script == old(script)[n..] &&
                log == old(log) + [Got(old(script)[..n])]
      ensures |old(script)| < n ==> r == None && script == old(script) && log == old(log)
    {
      if n <= |script| {
        r := Some(script[..n]);
        log := log + [Got(script[..n])];
        script := script[n..];
      } else {
        r := None;
      }
    }

    /** Select register `reg` and read one byte from it: a one-byte write of
        the address followed by a one-byte read, the step every register
        access of the drivers takes. */
    method ReadRegister(reg: bv8) returns (r: Option<bv8>)
      modifies this
      ensures var s := old(script);
              if s == [] then
                r == None && script == s && log == old(log) + [Wrote([reg])]
              else
                r == Some(s[0]) && script == s[1..] && log == old(log) + [Wrote([reg]), Got([s[0]])]
    {
      Write([reg]);
      var b := Read(1);
      if b.None? {
        return None;
      }
      assert b.value == [old(script)[0]];
      r := Some(b.value[0]);
    }

    /** `time.sleep`, recorded as an event instead of taking time. */
    method Sleep(ms: nat)
      modifies this
      ensures log == old(log) + [Slept(ms)]
      ensures script == old(script)
    {
      log := log + [Slept(ms)];
    }
  }

  /** The number of sleeps among some events. */
  function Sleeps(events: seq<Event>): nat
  {
    if events == [] then 0
    else (if events[0].Slept? then 1 else 0) + Sleeps(events[1..])
  }

  lemma SleepsCons(e: Event, rest: seq<Event>)
    ensures Sleeps([e] + rest) == (if e.Slept? then 1 else 0) + Sleeps(rest)
  {
    assert ([e] + rest)[1..] == rest;
  }

  lemma {:induction false} SleepsAppend(a: seq<Event>, b: seq<Event>)
    ensures Sleeps(a + b) == Sleeps(a) + Sleeps(b)
  {
    if a == [] {
      assert a + b == b;
    } else {
      assert (a + b)[1..] == a[1..] + b;
      SleepsAppend(a[1..], b);
    }
  }

  /** Events without a sleep among them contain no sleep. */
  lemma {:induction false} SleepsNone(events: seq<Event>)
    requires forall k :: 0 <= k < |events| ==> !events[k].Slept?
    ensures Sleeps(events) == 0
    decreases |events|
  {
    if events != [] {
      SleepsNone(events[1..]);
    }
  }

  // ---------------------------------------------------------------------
  // Reading registers one at a time: write the register address, read one byte.

  /** Select each register of `regs` in turn and read its byte. */
  function Registers(regs: seq<bv8>, s: seq<bv8>): Trace<seq<bv8>>
    decreases |regs|
  {
    if regs == [] then Trace([], s, Ok([]))
    else if s == [] then Trace([Wrote([regs[0]])], [], Err(Exhausted))
    else
      var t := Registers(regs[1..], s[1..]);
      Trace([Wrote([regs[0]]), Got([s[0]])] + t.events, t.rest,
            if t.result.Ok? then Ok([s[0]] + t.result.value) else t.result)
  }

  /** The events of a successful register-by-register read: each address
      written, then its byte read. */
  function Selected(regs: seq<bv8>, bytes: seq<bv8>): seq<Event>
    requires |regs| == |bytes|
    decreases |regs|
  {
    if regs == [] then []
    else [Wrote([regs[0]]), Got([bytes[0]])] + Selected(regs[1..], bytes[1..])
  }

  /** Reading registers one at a time succeeds exactly when the script holds
      a byte for each of them; it then returns those bytes, in order, and
      logs the address of each register before its byte. */
  lemma {:induction false} RegistersSpec(regs: seq<bv8>, s: seq<bv8>)
    ensures Registers(regs, s).result.Ok? <==> |regs| <= |s|
    ensures |regs| <= |s| ==>
              Registers(regs, s) == Trace(Selected(regs, s[..|regs|]), s[|regs|..], Ok(s[..|regs|]))
    ensures |s| < |regs| ==> Registers(regs, s).result == Err(Exhausted) && Registers(regs, s).rest == []
    decreases |regs|
  {
    if regs != [] && s != [] {
      RegistersSpec(regs[1..], s[1..]);
      if |regs| <= |s| {
        assert [s[0]] + s[1..][..|regs| - 1] == s[..|regs|];
        assert s[1..][|regs| - 1..] == s[|regs|..];
      }
    }
  }

  /** A burst read: write the first register's address, then read `n` bytes. */
  function Burst(reg: bv8, n: nat, s: seq<bv8>): (t: Trace<seq<bv8>>)
    ensures t.result.Ok? <==> n <= |s|
    ensures t.result.Ok? ==> |t.result.value| == n && s == t.result.value + t.rest
  {
    if n <= |s| then Trace([Wrote([reg]), Got(s[..n])], s[n..], Ok(s[..n]))
    else Trace([Wrote([reg])], s, Err(Exhausted))
  }

  // ---------------------------------------------------------------------
  // Poll loops: `while not ready: sleep(interval)`, where each readiness test
  // selects the status register and reads one byte from it.

  /** The condition on a status byte that ends a poll loop. */
  datatype ReadyWhen =
    | IsZero            // the whole byte reads 0x00
    | MaskClear(m: bv8) // every bit of the mask is 0
    | MaskSet(m: bv8)   // some bit of the mask is 1

  predicate Ready(rule: ReadyWhen, status: bv8)
  {
    match rule
    case IsZero => status == 0
    case MaskClear(m) => status & m == 0
    case MaskSet(m) => status & m != 0
  }

  /** Poll register `reg` until a status byte satisfies `rule`, sleeping `ms`
      after every byte that does not; the result is the ready byte. */
  function Poll(reg: bv8, rule: ReadyWhen, ms: nat, s: seq<bv8>): Trace<bv8>
    decreases |s|
  {
    if s == [] then Trace([Wrote([reg])], [], Err(Exhausted))
    else if Ready(rule, s[0]) then Trace([Wrote([reg]), Got([s[0]])], s[1..], Ok(s[0]))
    else
      var t := Poll(reg, rule, ms, s[1..]);
      Trace([Wrote([reg]), Got([s[0]]), Slept(ms)] + t.events, t.rest, t.result)
  }

  /** A status byte that is not ready adds one select-read-sleep round in
      front of the poll over the rest of the script. */
  lemma PollBusy(log: seq<Event>, reg: bv8, rule: ReadyWhen, ms: nat, s: seq<bv8>)
    requires s != [] && !Ready(rule, s[0])
    ensures log + Poll(reg, rule, ms, s).events ==
            (log + [Wrote([reg]), Got([s[0]]), Slept(ms)]) + Poll(reg, rule, ms, s[1..]).events
    ensures Poll(reg, rule, ms, s).rest == Poll(reg, rule, ms, s[1..]).rest
    ensures Poll(reg, rule, ms, s).result == Poll(reg, rule, ms, s[1..]).result
  {
  }

  /** The events of the unsuccessful polls over the status bytes `busy`. */
  function Attempts(reg: bv8, ms: nat, busy: seq<bv8>): seq<Event>
    decreases |busy|
  {
    if busy == [] then []
    else [Wrote([reg]), Got([busy[0]]), Slept(ms)] + Attempts(reg, ms, busy[1..])
  }

  /** The busy rounds of a poll write nothing but the status register's
      address. */
  lemma {:induction false} AttemptsWritesOnly(reg: bv8, ms: nat, busy: seq<bv8>)
    ensures forall k :: 0 <= k < |Attempts(reg, ms, busy)| && Attempts(reg, ms, busy)[k].Wrote? ==>
              Attempts(reg, ms, busy)[k].bytes == [reg]
    decreases |busy|
  {
    if busy != [] {
      AttemptsWritesOnly(reg, ms, busy[1..]);
    }
  }

  /** Every unsuccessful poll sleeps exactly once. */
  lemma {:induction false} AttemptsSleeps(reg: bv8, ms: nat, busy: seq<bv8>)
    ensures Sleeps(Attempts(reg, ms, busy)) == |busy|
    decreases |busy|
  {
    if busy != [] {
      var head := [Wrote([reg]), Got([busy[0]]), Slept(ms)];
      SleepsAppend(head, Attempts(reg, ms, busy[1..]));
      SleepsCons(Slept(ms), []);
      SleepsCons(Got([busy[0]]), [Slept(ms)]);
      SleepsCons(Wrote([reg]), [Got([busy[0]]), Slept(ms)]);
      AttemptsSleeps(reg, ms, busy[1..]);
    }
  }

  /** The sleeps of a poll loop that ended on a ready byte: one per busy byte. */
  lemma SuccessfulPollSleeps(reg: bv8, ms: nat, busy: seq<bv8>, ready: bv8)
    ensures Sleeps(Attempts(reg, ms, busy) + [Wrote([reg]), Got([ready])]) == |busy|
  {
    SleepsCons(Got([ready]), []);
    SleepsCons(Wrote([reg]), [Got([ready])]);
    AttemptsSleeps(reg, ms, busy);
    SleepsAppend(Attempts(reg, ms, busy), [Wrote([reg]), Got([ready])]);
  }

  /** A poll loop stops at the first ready status byte `s[i]`: before it, it
      logs one select-read-sleep round per byte that was not ready, then the
      final select and read; it consumes exactly `i + 1` bytes and returns
      the ready byte. */
  lemma {:induction false} PollStopsAtFirstReady(reg: bv8, rule: ReadyWhen, ms: nat, s: seq<bv8>, i: nat)
    requires i < |s| && Ready(rule, s[i])
    requires forall j :: 0 <= j < i ==> !Ready(rule, s[j])
    ensures Poll(reg, rule, ms, s) ==
            Trace(Attempts(reg, ms, s[..i]) + [Wrote([reg]), Got([s[i]])], s[i + 1..], Ok(s[i]))
    ensures Sleeps(Poll(reg, rule, ms, s).events) == i
    decreases i
  {
    var last := [Wrote([reg]), Got([s[i]])];
    if i > 0 {
      var head := [Wrote([reg]), Got([s[0]]), Slept(ms)];
      var busy := s[1..][..i - 1];
      PollStopsAtFirstReady(reg, rule, ms, s[1..], i - 1);
      assert busy == s[..i][1..];
      assert s[1..][i..] == s[i + 1..];
      assert Attempts(reg, ms, s[..i]) == head + Attempts(reg, ms, busy);
      assert head + (Attempts(reg, ms, busy) + last) == Attempts(reg, ms, s[..i]) + last;
    }
    SuccessfulPollSleeps(reg, ms, s[..i], s[i]);
  }

  /** A poll loop over a script with no ready byte reads all of it, sleeps
      once per byte and fails with `Exhausted` on the select after the last. */
  lemma {:induction false} PollExhausts(reg: bv8, rule: ReadyWhen, ms: nat, s: seq<bv8>)
    requires forall j :: 0 <= j < |s| ==> !Ready(rule, s[j])
    ensures Poll(reg, rule, ms, s) == Trace(Attempts(reg, ms, s) + [Wrote([reg])], [], Err(Exhausted))
    ensures Sleeps(Poll(reg, rule, ms, s).events) == |s|
    decreases |s|
  {
    if s != [] {
      PollExhausts(reg, rule, ms, s[1..]);
    }
    SleepsCons(Wrote([reg]), []);
    AttemptsSleeps(reg, ms, s);
    SleepsAppend(Attempts(reg, ms, s), [Wrote([reg])]);
  }

  /** A poll loop succeeds exactly when the script holds a ready byte. */
  lemma {:induction false} PollSucceedsIffReady(reg: bv8, rule: ReadyWhen, ms: nat, s: seq<bv8>)
    ensures Poll(reg, rule, ms, s).result.Ok? <==> exists j :: 0 <= j < |s| && Ready(rule, s[j])
    ensures Poll(reg, rule, ms, s).result.Ok? ==> Ready(rule, Poll(reg, rule, ms, s).result.value)
    decreases |s|
  {
    if s != [] && !Ready(rule, s[0]) {
      PollSucceedsIffReady(reg, rule, ms, s[1..]);
      if exists j :: 0 <= j < |s| && Ready(rule, s[j]) {
        var j :| 0 <= j < |s| && Ready(rule, s[j]);
        assert Ready(rule, s[1..][j - 1]);
      }
    }
  }

  // ---------------------------------------------------------------------
  // Assembling register bytes into words, as the drivers do with shifts
  // and ORs: the result is the weighted sum of the bytes, whichever order
  // the OR takes them in.

  lemma Word16Value(hi: bv8, lo: bv8)
    ensures ((hi as bv16 << 8) | lo as bv16) as int == hi as int * 256 + lo as int
    ensures (lo as bv16 | (hi as bv16 << 8)) as int == hi as int * 256 + lo as int
  {
  }

  lemma Word24Value(hi: bv8, mid: bv8, lo: bv8)
    ensures ((hi as bv32 << 16) | (mid as bv32 << 8) | lo as bv32) as int ==
            hi as int * 65536 + mid as int * 256 + lo as int
    ensures (lo as bv32 | (mid as bv32 << 8) | (hi as bv32 << 16)) as int ==
            hi as int * 65536 + mid as int * 256 + lo as int
  {
  }
}
