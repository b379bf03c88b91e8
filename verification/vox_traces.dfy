/**
 Runs of the VOX engine over input sequences, and the properties that hold
 of every such run: hold time, squelch preemption, write suppression, the
 independence of the logical state from the PTT pin, and the idle engine
 before the first frame.
 */
module VoxTraces {
  import opened CTypes
  import opened Vox

  /** The inputs one `vox_update` call consumes: the loudness it reads and
      the level of the squelch pin at that moment. */
  datatype TickInput = TickInput(level: int, pinHigh: bool)

  /** The result of a run of decisions: the final state, the output decided
      on each tick (the value passed to `ptt_set`), and every GPIO write. */
  datatype Trace = Trace(state: State, outs: seq<bool>, writes: seq<Write>)

  /** A sequence of `vox_update` calls. */
  function Ticks(cfg: Config, s: State, ins: seq<TickInput>): (r: Trace)
    ensures |r.outs| == |ins|
    ensures r.state.level == s.level && r.state.started == s.started
    ensures ins != [] ==> r.state.current == r.outs[|ins| - 1]
    ensures ins == [] ==> r.state == s
    decreases |ins|
  {
    if ins == [] then Trace(s, [], [])
    else
      var u := Update(cfg, s, ins[0].level, ins[0].pinHigh);
      var rest := Ticks(cfg, u.state, ins[1..]);
      Trace(rest.state, [u.state.current] + rest.outs, u.writes + rest.writes)
  }

  /** A tick that qualifies: squelch not asserted and loudness strictly
      above the negated threshold. */
  predicate Loud(cfg: Config, t: TickInput)
  {
    !Squelch(cfg, t.pinHigh) && t.level > -cfg.threshold
  }

  /** A tick that neither qualifies nor is squelched. */
  predicate Quiet(cfg: Config, t: TickInput)
  {
    !Squelch(cfg, t.pinHigh) && t.level <= -cfg.threshold
  }

  /** The counter bound every reachable state meets when the hold time is
      non-negative: the counter is never negative and is at most one less
      than the number of hold ticks. */
  predicate Bounded(cfg: Config, s: State)
  {
    0 <= s.release <= Max(0, HoldTicks(cfg) - 1)
  }

  lemma InitialBounded(cfg: Config)
    ensures Bounded(cfg, Initial)
  {
  }

  /** One decision keeps the counter bounded, for any non-negative hold
      time and any inputs. */
  lemma UpdateKeepsBounded(cfg: Config, s: State, level: int, pinHigh: bool)
    requires cfg.holdtime >= 0
    requires Bounded(cfg, s)
    ensures Bounded(cfg, Update(cfg, s, level, pinHigh).state)
  {
  }

  lemma {:induction false} TicksKeepBounded(cfg: Config, s: State, ins: seq<TickInput>)
    requires cfg.holdtime >= 0
    requires Bounded(cfg, s)
    ensures Bounded(cfg, Ticks(cfg, s, ins).state)
    decreases |ins|
  {
    if ins != [] {
      var u := Update(cfg, s, ins[0].level, ins[0].pinHigh);
      UpdateKeepsBounded(cfg, s, ins[0].level, ins[0].pinHigh);
      TicksKeepBounded(cfg, u.state, ins[1..]);
    }
  }

  /** A run of quiet ticks counts the hold counter `m` down: the output is
      on for exactly the first `m` of them (none when `m <= 0`). */
  lemma {:induction false} QuietCountdown(cfg: Config, s: State, ins: seq<TickInput>)
    requires forall i :: 0 <= i < |ins| ==> Quiet(cfg, ins[i])
    ensures forall i :: 0 <= i < |ins| ==> Ticks(cfg, s, ins).outs[i] == (i < s.release)
    ensures s.release > 0 ==> Ticks(cfg, s, ins).state.release == Max(0, s.release - |ins|)
    ensures s.release <= 0 ==> Ticks(cfg, s, ins).state.release == s.release
    decreases |ins|
  {
    if ins != [] {
      var u := Update(cfg, s, ins[0].level, ins[0].pinHigh);
      assert Quiet(cfg, ins[0]);
      QuietCountdown(cfg, u.state, ins[1..]);
      var r := Ticks(cfg, s, ins);
      forall i | 0 <= i < |ins|
        ensures r.outs[i] == (i < s.release)
      {
        if i > 0 {
          assert Quiet(cfg, ins[1..][i - 1]);
          assert r.outs[i] == Ticks(cfg, u.state, ins[1..]).outs[i - 1];
        }
      }
    }
  }

  /** Hold time: a qualifying tick followed only by quiet ticks keeps the
      output on for exactly `HoldTicks(cfg)` ticks, starting with the
      qualifying one, and off afterwards, whatever the prior state. */
  lemma {:induction false} HoldTime(cfg: Config, s: State, ins: seq<TickInput>)
    requires |ins| > 0 && Loud(cfg, ins[0])
    requires forall i :: 1 <= i < |ins| ==> Quiet(cfg, ins[i])
    ensures forall i :: 0 <= i < |ins| ==> Ticks(cfg, s, ins).outs[i] == (i < HoldTicks(cfg))
  {
    var n := HoldTicks(cfg);
    var u := Update(cfg, s, ins[0].level, ins[0].pinHigh);
    assert u.state.release == (if n > 0 then n - 1 else n);
    forall i | 0 <= i < |ins[1..]|
      ensures Quiet(cfg, ins[1..][i])
    {
      assert ins[1..][i] == ins[i + 1];
    }
    QuietCountdown(cfg, u.state, ins[1..]);
    var r := Ticks(cfg, s, ins);
    forall i | 0 <= i < |ins|
      ensures r.outs[i] == (i < n)
    {
      if i > 0 {
        assert r.outs[i] == Ticks(cfg, u.state, ins[1..]).outs[i - 1];
      }
    }
  }

  /** With a hold time below one tick period the output never turns on,
      from any state whose counter is not positive (in particular from
      every reachable state). */
  lemma {:induction false} ShortHoldNeverOn(cfg: Config, s: State, ins: seq<TickInput>)
    requires cfg.holdtime < UpdatePeriod
    requires s.release <= 0
    ensures forall i :: 0 <= i < |ins| ==> !Ticks(cfg, s, ins).outs[i]
    ensures Ticks(cfg, s, ins).state.release <= 0
    decreases |ins|
  {
    if ins != [] {
      var u := Update(cfg, s, ins[0].level, ins[0].pinHigh);
      ShortHoldNeverOn(cfg, u.state, ins[1..]);
      var r := Ticks(cfg, s, ins);
      forall i | 0 <= i < |ins|
        ensures !r.outs[i]
      {
        if i > 0 {
          assert r.outs[i] == Ticks(cfg, u.state, ins[1..]).outs[i - 1];
        }
      }
    }
  }

  /** Squelch preemption over a run: on every tick whose squelch input is
      asserted the output is off. */
  lemma {:induction false} SquelchedTicksAreOff(cfg: Config, s: State, ins: seq<TickInput>)
    ensures forall i :: 0 <= i < |ins| && Squelch(cfg, ins[i].pinHigh) ==> !Ticks(cfg, s, ins).outs[i]
    decreases |ins|
  {
    if ins != [] {
      var u := Update(cfg, s, ins[0].level, ins[0].pinHigh);
      SquelchedTicksAreOff(cfg, u.state, ins[1..]);
      var r := Ticks(cfg, s, ins);
      forall i | 0 <= i < |ins| && Squelch(cfg, ins[i].pinHigh)
        ensures !r.outs[i]
      {
        if i > 0 {
          assert ins[1..][i - 1] == ins[i];
          assert r.outs[i] == Ticks(cfg, u.state, ins[1..]).outs[i - 1];
        }
      }
    }
  }

  /** The values among `outs` that differ from the value before them
      (`prev` for the first): the transitions of the output. */
  function Changes(prev: bool, outs: seq<bool>): (r: seq<bool>)
    ensures |r| <= |outs|
    decreases |outs|
  {
    if outs == [] then []
    else if outs[0] == prev then Changes(prev, outs[1..])
    else [outs[0]] + Changes(outs[0], outs[1..])
  }

  /** The writes a list of applied values turns into on pin `pin`. */
  function WritesOn(pin: int, vals: seq<bool>): (r: seq<Write>)
    ensures |r| == |vals|
    ensures forall i :: 0 <= i < |vals| ==> r[i] == Write(pin, vals[i])
    decreases |vals|
  {
    if vals == [] then [] else [Write(pin, vals[0])] + WritesOn(pin, vals[1..])
  }

  /** Write suppression over a run: the writes are exactly the transitions
      of the decided output, starting from the last applied value, on the
      PTT pin; with no PTT pin nothing is ever written. */
  lemma {:induction false} WritesAreTransitions(cfg: Config, s: State, ins: seq<TickInput>)
    ensures cfg.gpioPtt == Unset ==> Ticks(cfg, s, ins).writes == []
    ensures cfg.gpioPtt != Unset ==>
      Ticks(cfg, s, ins).writes == WritesOn(cfg.gpioPtt, Changes(s.current, Ticks(cfg, s, ins).outs))
    decreases |ins|
  {
    if ins != [] {
      var u := Update(cfg, s, ins[0].level, ins[0].pinHigh);
      WritesAreTransitions(cfg, u.state, ins[1..]);
      var rest := Ticks(cfg, u.state, ins[1..]);
      var r := Ticks(cfg, s, ins);
      assert r.outs == [u.state.current] + rest.outs;
      assert r.outs[1..] == rest.outs;
      if cfg.gpioPtt != Unset && u.state.current != s.current {
        assert Changes(s.current, r.outs) == [u.state.current] + Changes(u.state.current, rest.outs);
        assert WritesOn(cfg.gpioPtt, Changes(s.current, r.outs))
          == [Write(cfg.gpioPtt, u.state.current)] + WritesOn(cfg.gpioPtt, Changes(u.state.current, rest.outs));
      }
    }
  }

  /** With the same input on every tick, every tick decides the same
      output: on exactly when the input qualifies and the hold is at least
      one tick. A repeated quiet input needs a spent counter; a repeated
      qualifying or squelched input decides the same from any state. */
  lemma {:induction false} ConstantOuts(cfg: Config, s: State, t: TickInput, ins: seq<TickInput>)
    requires forall i :: 0 <= i < |ins| ==> ins[i] == t
    requires Quiet(cfg, t) ==> s.release <= 0
    ensures forall i :: 0 <= i < |ins| ==>
      Ticks(cfg, s, ins).outs[i] == (Loud(cfg, t) && HoldTicks(cfg) > 0)
    decreases |ins|
  {
    if ins != [] {
      var u := Update(cfg, s, ins[0].level, ins[0].pinHigh);
      assert ins[0] == t;
      assert forall i :: 0 <= i < |ins[1..]| ==> ins[1..][i] == ins[i + 1];
      ConstantOuts(cfg, u.state, t, ins[1..]);
      var r := Ticks(cfg, s, ins);
      forall i | 0 <= i < |ins|
        ensures r.outs[i] == (Loud(cfg, t) && HoldTicks(cfg) > 0)
      {
        if i > 0 {
          assert r.outs[i] == Ticks(cfg, u.state, ins[1..]).outs[i - 1];
        }
      }
    }
  }

  /** Idempotence: repeating one input issues at most one write, the switch
      to the output that input decides, and none when the output already
      has that value. */
  lemma ConstantTicksWriteAtMostOnce(cfg: Config, s: State, t: TickInput, ins: seq<TickInput>)
    requires forall i :: 0 <= i < |ins| ==> ins[i] == t
    requires Quiet(cfg, t) ==> s.release <= 0
    ensures |Ticks(cfg, s, ins).writes| <= 1
    ensures s.current == (Loud(cfg, t) && HoldTicks(cfg) > 0) ==> Ticks(cfg, s, ins).writes == []
    ensures ins != [] ==> Ticks(cfg, s, ins).state.current == (Loud(cfg, t) && HoldTicks(cfg) > 0)
  {
    ConstantOuts(cfg, s, t, ins);
    WritesAreTransitions(cfg, s, ins);
    var outs := Ticks(cfg, s, ins).outs;
    ConstantChanges(s.current, outs, Loud(cfg, t) && HoldTicks(cfg) > 0);
  }

  /** Idempotence: while the counter is spent and the ticks stay quiet, the
      output stays off and at most one write (switching it off) is issued. */
  lemma IdleTicksWriteAtMostOnce(cfg: Config, s: State, ins: seq<TickInput>)
    requires s.release <= 0
    requires forall i :: 0 <= i < |ins| ==> Quiet(cfg, ins[i])
    ensures |Ticks(cfg, s, ins).writes| <= 1
    ensures !s.current ==> Ticks(cfg, s, ins).writes == []
  {
    QuietCountdown(cfg, s, ins);
    WritesAreTransitions(cfg, s, ins);
    var outs := Ticks(cfg, s, ins).outs;
    ConstantChanges(s.current, outs, false);
  }

  /** The transitions of a constant sequence: at most the one away from
      `prev`. */
  lemma {:induction false} ConstantChanges(prev: bool, outs: seq<bool>, v: bool)
    requires forall i :: 0 <= i < |outs| ==> outs[i] == v
    ensures |Changes(prev, outs)| <= 1
    ensures prev == v ==> Changes(prev, outs) == []
    decreases |outs|
  {
    if outs != [] {
      ConstantChanges(outs[0], outs[1..], v);
      ConstantChanges(prev, outs[1..], v);
    }
  }

  /** The last applied value after a run of outputs `outs` that started
      from `prev`. */
  function LastOut(prev: bool, outs: seq<bool>): bool
  {
    if outs == [] then prev else outs[|outs| - 1]
  }

  /** Extending the outputs by one value adds that value to the transitions
      exactly when it differs from the last applied one. */
  lemma {:induction false} ChangesSnoc(prev: bool, outs: seq<bool>, v: bool)
    ensures Changes(prev, outs + [v])
      == Changes(prev, outs) + (if LastOut(prev, outs) != v then [v] else [])
    decreases |outs|
  {
    if outs == [] {
      assert [] + [v] == [v];
      assert [v][1..] == [];
    } else {
      ChangesSnoc(outs[0], outs[1..], v);
      assert (outs + [v])[0] == outs[0];
      assert (outs + [v])[1..] == outs[1..] + [v];
      assert LastOut(outs[0], outs[1..]) == LastOut(prev, outs);
    }
  }

  /** `WritesOn` distributes over concatenation. */
  lemma WritesOnAppend(pin: int, a: seq<bool>, b: seq<bool>)
    ensures WritesOn(pin, a + b) == WritesOn(pin, a) + WritesOn(pin, b)
  {
    var l := WritesOn(pin, a + b);
    var r := WritesOn(pin, a) + WritesOn(pin, b);
    assert |l| == |r|;
    forall i | 0 <= i < |l|
      ensures l[i] == r[i]
    {
      if i >= |a| {
        assert (a + b)[i] == b[i - |a|];
      }
    }
  }

  /** A run followed by `module_close`: the output ends off, and all the
      writes together are exactly the transitions of the run's outputs
      followed by a final "off", on the PTT pin. */
  lemma TicksThenClose(cfg: Config, s: State, ins: seq<TickInput>)
    ensures !Close(cfg, Ticks(cfg, s, ins).state).state.current
    ensures cfg.gpioPtt == Unset ==>
      Ticks(cfg, s, ins).writes + Close(cfg, Ticks(cfg, s, ins).state).writes == []
    ensures cfg.gpioPtt != Unset ==>
      Ticks(cfg, s, ins).writes + Close(cfg, Ticks(cfg, s, ins).state).writes
        == WritesOn(cfg.gpioPtt, Changes(s.current, Ticks(cfg, s, ins).outs + [false]))
  {
    var t := Ticks(cfg, s, ins);
    var c := Close(cfg, t.state);
    WritesAreTransitions(cfg, s, ins);
    assert t.state.current == LastOut(s.current, t.outs);
    if cfg.gpioPtt != Unset {
      ChangesSnoc(s.current, t.outs, false);
      var tail := if t.state.current then [false] else [];
      WritesOnAppend(cfg.gpioPtt, Changes(s.current, t.outs), tail);
      assert c.writes == WritesOn(cfg.gpioPtt, tail);
    }
  }

  /** The built-in configuration has no PTT pin and a 1000 ms hold: a run
      decides outputs but never writes, and a qualifying tick holds the
      output for 10 ticks. */
  lemma DefaultConfigDryRun(s: State, ins: seq<TickInput>)
    ensures Ticks(DefaultConfig, s, ins).writes == []
    ensures HoldTicks(DefaultConfig) == 10
    ensures forall i :: 0 <= i < |ins| ==> !Squelch(DefaultConfig, ins[i].pinHigh)
  {
    WritesAreTransitions(DefaultConfig, s, ins);
  }

  /** Two configurations that differ at most in the PTT pin. */
  predicate SameButPtt(c1: Config, c2: Config)
  {
    c1.threshold == c2.threshold && c1.holdtime == c2.holdtime && c1.gpioSquelch == c2.gpioSquelch
  }

  /** Dry run: the PTT pin influences only the writes, never the logical
      state or the decided outputs. */
  lemma {:induction false} PttPinOnlyAffectsWrites(c1: Config, c2: Config, s: State, ins: seq<TickInput>)
    requires SameButPtt(c1, c2)
    ensures Ticks(c1, s, ins).state == Ticks(c2, s, ins).state
    ensures Ticks(c1, s, ins).outs == Ticks(c2, s, ins).outs
    decreases |ins|
  {
    if ins != [] {
      var u1 := Update(c1, s, ins[0].level, ins[0].pinHigh);
      var u2 := Update(c2, s, ins[0].level, ins[0].pinHigh);
      assert HoldTicks(c1) == HoldTicks(c2);
      assert u1.state == u2.state;
      PttPinOnlyAffectsWrites(c1, c2, u1.state, ins[1..]);
    }
  }

  /** The things the module reacts to: a decoded frame (`None` for a call
      with a null argument) and a timer tick with the squelch pin level. */
  datatype Event = Frame(frame: Option<int>) | Tick(pinHigh: bool)

  /** A sequence of `decode` calls and timer ticks. */
  function Run(cfg: Config, s: State, evs: seq<Event>): (r: Step)
    // the engine is started exactly when it was, or some frame was accepted
    ensures r.state.started <==>
      s.started || exists i :: 0 <= i < |evs| && evs[i].Frame? && evs[i].frame.Some?
    // every write goes to the PTT pin, and none without one
    ensures forall i :: 0 <= i < |r.writes| ==> r.writes[i].pin == cfg.gpioPtt
    ensures cfg.gpioPtt == Unset ==> r.writes == []
    // each event writes at most once
    ensures |r.writes| <= |evs|
    decreases |evs|
  {
    if evs == [] then Step(s, [])
    else
      var first := match evs[0]
        case Frame(f) => Step(Decode(s, f).1, [])
        case Tick(p) => TimerTick(cfg, s, p);
      var rest := Run(cfg, first.state, evs[1..]);
      assert forall i :: 0 <= i < |evs[1..]| ==> evs[1..][i] == evs[i + 1];
      Step(rest.state, first.writes + rest.writes)
  }

  /** Before `decode` accepts a frame the engine is idle: ticks and
      rejected frames change nothing and write nothing. */
  lemma {:induction false} IdleUntilFirstFrame(cfg: Config, s: State, evs: seq<Event>)
    requires !s.started
    requires forall i :: 0 <= i < |evs| ==> evs[i].Tick? || evs[i].frame.None?
    ensures Run(cfg, s, evs) == Step(s, [])
    decreases |evs|
  {
    if evs != [] {
      assert evs[0].Tick? || evs[0].frame.None?;
      IdleUntilFirstFrame(cfg, s, evs[1..]);
    }
  }

  /** Once started, a tick decides on the loudness of the most recent
      accepted frame. */
  lemma FrameThenTick(cfg: Config, s: State, dbov: int, pinHigh: bool)
    ensures Run(cfg, s, [Frame(Some(dbov)), Tick(pinHigh)]).state
      == Update(cfg, s.(level := dbov, started := true), dbov, pinHigh).state
  {
    var evs := [Frame(Some(dbov)), Tick(pinHigh)];
    var s1 := s.(level := dbov, started := true);
    assert Run(cfg, s, evs).state == Run(cfg, s1, evs[1..]).state;
    assert Run(cfg, s1, evs[1..]).state == Run(cfg, TimerTick(cfg, s1, pinHigh).state, []).state;
  }

  /** The counter at the end of a tick is not the output: the last tick of
      a hold ends with the counter at zero while the output is on. */
  lemma LastHoldTickEndsAtZero(cfg: Config, s: State, level: int, pinHigh: bool)
    requires s.release == 1
    requires !Squelch(cfg, pinHigh) && level <= -cfg.threshold
    ensures Update(cfg, s, level, pinHigh).state.current
    ensures Update(cfg, s, level, pinHigh).state.release == 0
  {
  }

  /** The scenario threshold 60, hold time 200 ms: a -50 dBov tick and two
      -80 dBov ticks give outputs on, on, off. */
  lemma ScenarioHold()
    ensures Ticks(Config(60, 200, 7, Unset), Initial,
                  [TickInput(-50, false), TickInput(-80, false), TickInput(-80, false)]).outs
            == [true, true, false]
  {
  }

  /** The same configuration with squelch asserted on the second tick while
      the level still qualifies: the output goes off on that tick. */
  lemma ScenarioSquelch()
    ensures Ticks(Config(60, 200, 7, 3), Initial,
                  [TickInput(-50, false), TickInput(-50, true)]).outs
            == [true, false]
  {
  }
}
