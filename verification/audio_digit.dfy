/**
 DTMF key tracking of the audio stream (`audio_send_digit`): a key press
 sends a telephone-event start, a key release sends the end of the event
 for the key that is currently pressed, and the stream remembers the last
 key it was given.

 The digit-to-event mapping and the sending of telephone events belong to
 the telephone-event component, which is not part of this model: the
 mapping is a function parameter, and each send is recorded as a
 `TelEvent` in an output trace.
 */
module AudioDigit {
  import opened CTypes

  /** No key (the zero character). */
  const KeycodeNone: char := 0 as char

  /** The key-release code. */
  const KeycodeRel: char := 4 as char

  /** One telephone event handed to the sender: the event code and whether
      it ends the event. */
  datatype TelEvent = TelEvent(event: int, end: bool)

  /** Result of `audio_send_digit`: its status, the transmit side's current
      key afterwards (`None` for a null audio object), and the events sent. */
  datatype DigitResult = DigitResult(status: Status, curKey: Option<char>, sent: seq<TelEvent>)

  /** A current key that an end event can be sent for. */
  predicate Pressed(k: char)
  {
    k != KeycodeNone && k != KeycodeRel
  }

  /** A key `audio_send_digit` takes: the release code, or a key with an
      event code. */
  predicate Accepted(key: char, code: char -> int)
  {
    key == KeycodeRel || code(key) != -1
  }

  /** `keys[i]` is the last key in `keys` that `audio_send_digit` takes. */
  predicate LastAcceptedAt(keys: seq<char>, code: char -> int, i: int)
  {
    0 <= i < |keys| && Accepted(keys[i], code) && forall j :: i < j < |keys| ==> !Accepted(keys[j], code)
  }

  /** `audio_send_digit` on an audio object whose current key is `a` (`None`
      for a null object). `code` maps a key to its event code, -1 for a key
      that has none; `sendStatus` is what sending an event returns. */
  function SendDigit(a: Option<char>, key: char, code: char -> int, sendStatus: Status): (r: DigitResult)
    ensures a.None? ==> r == DigitResult(Err(EINVAL), None, [])
    // an invalid digit is refused and the current key is kept
    ensures a.Some? && key != KeycodeRel && code(key) == -1 ==>
      r == DigitResult(Err(EINVAL), a, [])
    // a valid press sends the start of its event
    ensures a.Some? && key != KeycodeRel && code(key) != -1 ==>
      r.sent == [TelEvent(code(key), false)] && r.status == sendStatus
    // a release ends the pressed key's event, and sends nothing otherwise
    ensures a.Some? && key == KeycodeRel ==>
      r.sent == (if Pressed(a.value) then [TelEvent(code(a.value), true)] else [])
    ensures a.Some? && key == KeycodeRel && Pressed(a.value) ==> r.status == sendStatus
    ensures a.Some? && key == KeycodeRel && !Pressed(a.value) ==> r.status == Ok
    // every accepted call records the key
    ensures a.Some? && Accepted(key, code) ==> r.curKey == Some(key)
    ensures |r.sent| <= 1
  {
    match a
    case None => DigitResult(Err(EINVAL), None, [])
    case Some(cur) =>
      if key != KeycodeRel then
        var event := code(key);
        if event == -1 then DigitResult(Err(EINVAL), a, [])
        else DigitResult(sendStatus, Some(key), [TelEvent(event, false)])
      else if Pressed(cur) then
        DigitResult(sendStatus, Some(key), [TelEvent(code(cur), true)])
      else DigitResult(Ok, Some(key), [])
  }

  /** A sequence of `audio_send_digit` calls on one audio object; the send
      status does not influence the key or the events. */
  function DigitRun(cur: char, keys: seq<char>, code: char -> int): (r: (char, seq<TelEvent>))
    // at most one event per call
    ensures |r.1| <= |keys|
    // refused keys change nothing and send nothing
    ensures (forall i :: 0 <= i < |keys| ==> !Accepted(keys[i], code)) ==> r == (cur, [])
    // the current key is the last accepted one, whatever refused keys follow it
    ensures forall i :: LastAcceptedAt(keys, code, i) ==> r.0 == keys[i]
    decreases |keys|
  {
    if keys == [] then (cur, [])
    else
      var d := SendDigit(Some(cur), keys[0], code, Ok);
      var rest := DigitRun(d.curKey.value, keys[1..], code);
      assert forall i :: 0 <= i < |keys[1..]| ==> keys[1..][i] == keys[i + 1];
      assert forall i :: LastAcceptedAt(keys, code, i) && i > 0 ==> LastAcceptedAt(keys[1..], code, i - 1);
      (rest.0, d.sent + rest.1)
  }

  /** The events are well paired: every end event closes the event most
      recently started and not yet ended (`open`). */
  predicate Paired(open: Option<int>, evs: seq<TelEvent>)
    decreases |evs|
  {
    if evs == [] then true
    else if !evs[0].end then Paired(Some(evs[0].event), evs[1..])
    else open == Some(evs[0].event) && Paired(None, evs[1..])
  }

  /** Key releases pair with key presses: over any sequence of calls, each
      end event names the event whose start was sent last and is still
      open. `open` is the event started before the run; when a key is
      pressed, it is that key's event. */
  lemma {:induction false} DigitRunPaired(cur: char, open: Option<int>, keys: seq<char>, code: char -> int)
    requires Pressed(cur) ==> open == Some(code(cur))
    ensures Paired(open, DigitRun(cur, keys, code).1)
    decreases |keys|
  {
    if keys != [] {
      var d := SendDigit(Some(cur), keys[0], code, Ok);
      var next := d.curKey.value;
      var open' := if d.sent == [] then open
                   else if d.sent[0].end then None
                   else Some(d.sent[0].event);
      DigitRunPaired(next, open', keys[1..], code);
      var rest := DigitRun(next, keys[1..], code).1;
      assert DigitRun(cur, keys, code).1 == d.sent + rest;
      if d.sent != [] {
        var evs := d.sent + rest;
        assert evs[0] == d.sent[0] && evs[1..] == rest;
        if d.sent[0].end {
          assert Pressed(cur) && d.sent[0].event == code(cur);
        }
        assert Paired(open, evs);
      } else {
        assert d.sent + rest == rest;
      }
    }
  }

  /** From the idle state, a press of a valid key followed by a release
      sends exactly the start and the end of that key's event. */
  lemma PressThenRelease(cur: char, k: char, code: char -> int)
    requires !Pressed(cur)
    requires Pressed(k) && code(k) != -1
    ensures DigitRun(cur, [k, KeycodeRel], code) == (KeycodeRel, [TelEvent(code(k), false), TelEvent(code(k), true)])
  {
    var keys := [k, KeycodeRel];
    assert SendDigit(Some(cur), k, code, Ok) == DigitResult(Ok, Some(k), [TelEvent(code(k), false)]);
    assert keys[1..] == [KeycodeRel];
    assert SendDigit(Some(k), KeycodeRel, code, Ok) == DigitResult(Ok, Some(KeycodeRel), [TelEvent(code(k), true)]);
    assert [KeycodeRel][1..] == [];
    assert DigitRun(KeycodeRel, [], code) == (KeycodeRel, []);
    assert [TelEvent(code(k), true)] + [] == [TelEvent(code(k), true)];
    assert DigitRun(k, [KeycodeRel], code) == (KeycodeRel, [TelEvent(code(k), true)]);
    assert [TelEvent(code(k), false)] + [TelEvent(code(k), true)]
      == [TelEvent(code(k), false), TelEvent(code(k), true)];
  }

  /** A second release sends nothing: the key has already been released. */
  lemma ReleaseTwice(cur: char, code: char -> int)
    ensures DigitRun(cur, [KeycodeRel, KeycodeRel], code).1
      == (if Pressed(cur) then [TelEvent(code(cur), true)] else [])
  {
    var keys := [KeycodeRel, KeycodeRel];
    assert DigitRun(cur, keys, code).1
      == SendDigit(Some(cur), KeycodeRel, code, Ok).sent + DigitRun(KeycodeRel, keys[1..], code).1;
    assert DigitRun(KeycodeRel, keys[1..], code).1
      == [] + DigitRun(KeycodeRel, [], code).1;
  }
}
