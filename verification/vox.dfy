/**
 The voice-operated switch (VOX) of the vox filter module.

 `State` holds the module-global hold counter, the last value applied to
 the push-to-talk (PTT) output, and the decoder's latest level and
 `started` flag. Each entry point of the module is a pure step function
 from a state and its inputs to the next state and the GPIO writes it
 issues.

 GPIO is abstract: a squelch read is an input `bool`, a PTT write is a
 `Write` record appended to an output trace.
 */
module Vox {
  import opened CTypes

  /** Period of the decoder timer, in milliseconds. */
  const UpdatePeriod: int := 100

  /** Pin number meaning "no GPIO configured". */
  const Unset: int := -1

  /** The four configuration integers of the module. */
  datatype Config = Config(
    threshold: int,    // voice level threshold, as a magnitude below 0 dBov
    holdtime: int,     // PTT hold time in milliseconds
    gpioPtt: int,      // PTT output pin, or Unset
    gpioSquelch: int   // squelch input pin, or Unset
  )

  /** The built-in configuration used when no setting is given. */
  const DefaultConfig: Config := Config(60, 1000, Unset, Unset)

  /** Number of timer ticks a qualifying tick arms the hold counter with:
      C's truncating `int` division of the hold time by the tick period. */
  function HoldTicks(cfg: Config): (n: int)
    ensures cfg.holdtime >= 0 ==> n >= 0 && n * UpdatePeriod <= cfg.holdtime < (n + 1) * UpdatePeriod
    ensures cfg.holdtime < 0 ==> (n - 1) * UpdatePeriod < cfg.holdtime <= n * UpdatePeriod
    ensures n > 0 <==> cfg.holdtime >= UpdatePeriod
  {
    TruncDiv(cfg.holdtime, UpdatePeriod)
  }

  /** The integer level of the model stands for the measured loudness
      rounded up: `vox_update` compares the measured `double` with the
      integer `-threshold`, and that comparison has the same outcome for the
      loudness and for its ceiling. */
  lemma CeilingDecidesAlike(value: real, threshold: int)
    ensures value > (-threshold) as real <==> Ceil(value) > -threshold
  {
  }

  /**
   The state the module keeps between calls:
   - `release`: the hold counter (`ptt_release`);
   - `current`: the last value applied to the PTT output (the function-static
     `current` of `ptt_set`);
   - `level`: the latest loudness in dBov seen by `decode`;
   - `started`: set once `decode` has accepted a frame.
   */
  datatype State = State(release: int, current: bool, level: int, started: bool)

  /** The state at module load: everything zero. */
  const Initial: State := State(0, false, 0, false)

  /** One `digitalWrite` call. */
  datatype Write = Write(pin: int, high: bool)

  /** A state together with the writes issued while reaching it. */
  datatype Step = Step(state: State, writes: seq<Write>)

  /** The squelch input: the pin's level when a squelch pin is configured,
      otherwise never asserted. */
  function Squelch(cfg: Config, pinHigh: bool): (asserted: bool)
    ensures cfg.gpioSquelch != Unset ==> asserted == pinHigh
    ensures cfg.gpioSquelch == Unset ==> !asserted
  {
    if cfg.gpioSquelch != Unset then pinHigh else false
  }

  /** `ptt_set`: applies `value`, writing the pin only when the value differs
      from the last applied one and a PTT pin is configured. The last
      applied value is updated whether or not a pin is configured. */
  function PttSet(cfg: Config, current: bool, value: bool): (r: (bool, seq<Write>))
    ensures r.0 == value
    ensures |r.1| <= 1
    ensures r.1 != [] <==> value != current && cfg.gpioPtt != Unset
    ensures forall w :: w in r.1 ==> w == Write(cfg.gpioPtt, value)
  {
    if value == current then (current, [])
    else if cfg.gpioPtt != Unset then (value, [Write(cfg.gpioPtt, value)])
    else (value, [])
  }

  /** The counter `vox_update` works with after its squelch / threshold
      step and before deciding the output. */
  function Armed(cfg: Config, release: int, level: int, pinHigh: bool): (armed: int)
    ensures Squelch(cfg, pinHigh) ==> armed == 0
    ensures !Squelch(cfg, pinHigh) && level > -cfg.threshold ==> armed == HoldTicks(cfg)
    ensures !Squelch(cfg, pinHigh) && level <= -cfg.threshold ==> armed == release
    ensures cfg.holdtime >= 0 && release >= 0 ==> armed >= 0
  {
    if Squelch(cfg, pinHigh) then 0
    else if level > -cfg.threshold then HoldTicks(cfg)
    else release
  }

  /** `vox_update`: one decision with loudness `level` and squelch pin
      level `pinHigh`. */
  function Update(cfg: Config, s: State, level: int, pinHigh: bool): (r: Step)
    // squelch preempts everything: counter zeroed, output off
    ensures Squelch(cfg, pinHigh) ==> r.state.release == 0 && !r.state.current
    // every qualifying tick re-arms, whatever the prior counter
    ensures !Squelch(cfg, pinHigh) && level > -cfg.threshold ==>
      r.state.current == (HoldTicks(cfg) > 0) &&
      r.state.release == (if HoldTicks(cfg) > 0 then HoldTicks(cfg) - 1 else HoldTicks(cfg))
    // a non-qualifying tick (including a level equal to -threshold) only counts down
    ensures !Squelch(cfg, pinHigh) && level <= -cfg.threshold ==>
      r.state.current == (s.release > 0) &&
      r.state.release == (if s.release > 0 then s.release - 1 else s.release)
    // the output is on exactly when the tick consumed one unit of the counter
    ensures r.state.current <==> r.state.release == Armed(cfg, s.release, level, pinHigh) - 1
    // a write is issued exactly when the output changes and a pin is configured
    ensures r.writes == (if r.state.current != s.current && cfg.gpioPtt != Unset
                         then [Write(cfg.gpioPtt, r.state.current)] else [])
    ensures r.state.level == s.level && r.state.started == s.started
  {
    var armed := Armed(cfg, s.release, level, pinHigh);
    var on := armed > 0;
    var p := PttSet(cfg, s.current, on);
    Step(s.(release := if on then armed - 1 else armed, current := p.0), p.1)
  }

  /** `dec_tmr_handler`: a timer tick runs `vox_update` on the latest level
      once `decode` has accepted a frame, and does nothing before that. */
  function TimerTick(cfg: Config, s: State, pinHigh: bool): (r: Step)
    ensures !s.started ==> r == Step(s, [])
    ensures s.started ==> r == Update(cfg, s, s.level, pinHigh)
  {
    if s.started then Update(cfg, s, s.level, pinHigh) else Step(s, [])
  }

  /** `decode`: records the loudness of a frame. `None` stands for a call
      with a null state, sample buffer or sample count, which is rejected
      with EINVAL and leaves the state untouched. */
  function Decode(s: State, frame: Option<int>): (r: (Status, State))
    ensures frame.None? ==> r == (Err(EINVAL), s)
    ensures frame.Some? ==> r.0 == Ok && r.1.started && r.1.level == frame.value
    ensures r.1.release == s.release && r.1.current == s.current
  {
    match frame
    case None => (Err(EINVAL), s)
    case Some(dbov) => (Ok, s.(level := dbov, started := true))
  }

  /** `module_close`: the final `ptt_set(0)`. */
  function Close(cfg: Config, s: State): (r: Step)
    ensures !r.state.current
    ensures r.writes != [] <==> s.current && cfg.gpioPtt != Unset
    ensures r.writes != [] ==> r.writes == [Write(cfg.gpioPtt, false)]
    ensures r.state.release == s.release
    ensures r.state.level == s.level && r.state.started == s.started
  {
    var p := PttSet(cfg, s.current, false);
    Step(s.(current := p.0), p.1)
  }
}
