/** The registration-number verification state of the doctor form
    (src/features/doctors/hooks/use-slmc-verification.ts).

    Typing arms a debounce timer; when it fires, the trimmed number is sent to the
    lookup endpoint unless it is the number verified last. Each request has its own
    abort controller; starting a new request or resetting aborts the current one,
    and an aborted request's answer is dropped.

    The clock and the network are events: `TimerFires` is the debounce timer
    running out, `Settle(request, outcome)` is request number `request` (counting
    from 1) coming back. */
module SlmcVerificationHook {
  import opened Common
  import opened JsString
  import opened DoctorTypes
  import SlmcVerifyRoute

  /** The debounce delay in milliseconds; timing itself is an event here. */
  const DebounceMs: nat := 800

  const UnableToVerify: string := "Unable to verify SLMC registration. Please try again."

  /** How a request ended: with a JSON body from the endpoint, or by throwing
      (network failure, or a body that is not JSON). An abort is not an outcome:
      an aborted request's answer is never applied. */
  datatype Outcome = Answered(body: SlmcVerifyRoute.Body) | Failed

  /** What an applied outcome shows: status, practitioner and error message. A
      401 body has no `error` field, so it shows "invalid" without a message. */
  function Shown(outcome: Outcome): (r: (SlmcVerificationStatus, Option<SlmcPractitioner>, Option<string>))
    ensures r.0 == Valid <==> outcome.Answered? && outcome.body.Verified?
    ensures r.0 != Valid ==> r.0 == Invalid && r.1.None?
    ensures r.0 == Valid ==> r.1 == Some(outcome.body.practitioner) && r.2.None?
    ensures r.2.None? <==> outcome.Answered? && !outcome.body.Unverified?
    ensures outcome.Answered? && outcome.body.Unverified? ==>
      r.2 == Some(SlmcVerifyRoute.FailureText(outcome.body.failure))
    ensures outcome.Failed? ==> r == (Invalid, None, Some(UnableToVerify))
  {
    if outcome.Failed? then (Invalid, None, Some(UnableToVerify))
    else if outcome.body.Verified? then (Valid, Some(outcome.body.practitioner), None)
    else if outcome.body.Unverified? then
      (Invalid, None, Some(SlmcVerifyRoute.FailureText(outcome.body.failure)))
    else (Invalid, None, None)
  }

  class SlmcVerification {
    var inputValue: string
    var status: SlmcVerificationStatus
    var practitioner: Option<SlmcPractitioner>
    var error: Option<string>
    /** The number most recently sent, "" after a reset. */
    var lastVerified: string
    /** The trimmed value a pending debounce timer will verify. */
    var timer: Option<string>
    /** Every lookup sent, in order; request `g` asked for `requests[g - 1]`. */
    var requests: seq<string>
    /** The newest request has not come back yet. */
    var awaiting: bool
    /** The newest request's controller has been aborted. */
    var aborted: bool
    var mounted: bool

    /** What the hook keeps true between events. */
    predicate Consistent()
      reads this
    {
      && ((status == Idle || status == Loading) ==> practitioner.None? && error.None?)
      && (status == Valid ==> practitioner.Some? && error.None?)
      && (status == Invalid ==> practitioner.None?)
      && (status != Idle ==> lastVerified != [])
      && NoOuterSpace(lastVerified)
      && (timer.Some? ==>
            var v := timer.value;
            v != [] && v != lastVerified && v == Trim(inputValue))
      && (awaiting && !aborted ==>
            (status == Loading || status == Idle) && requests != [] &&
            lastVerified != [] && lastVerified == requests[|requests| - 1])
      && (status == Loading && mounted ==> awaiting && !aborted)
      && (requests == [] ==> !awaiting)
      && (requests != [] && status != Idle ==> lastVerified == requests[|requests| - 1])
    }

    constructor()
      ensures Consistent() && mounted
      ensures inputValue == [] && status == Idle && practitioner.None? && error.None?
      ensures lastVerified == [] && timer.None? && requests == [] && !awaiting
    {
      inputValue := [];
      status := Idle;
      practitioner := None;
      error := None;
      lastVerified := [];
      timer := None;
      requests := [];
      awaiting := false;
      aborted := false;
      mounted := true;
    }

    /** Abort the current request, cancel the timer, clear the result and forget
        the number verified last. */
    method Reset()
      requires Consistent()
      modifies this
      ensures Consistent()
      ensures status == Idle && practitioner.None? && error.None?
      ensures lastVerified == [] && timer.None?
      ensures aborted == (old(aborted) || requests != [])
      ensures inputValue == old(inputValue) && requests == old(requests)
      ensures awaiting == old(awaiting) && mounted == old(mounted)
    {
      if requests != [] {
        aborted := true;
      }
      timer := None;
      status := Idle;
      practitioner := None;
      error := None;
      lastVerified := [];
    }

    /** Send a lookup for `regNo` unless its trim is empty or was sent last. It
        runs when the debounce timer fires, so no timer is pending. */
    method Verify(regNo: string)
      requires Consistent() && timer.None?
      modifies this
      ensures Consistent()
      ensures var t := Trim(regNo);
              if t == [] || t == old(lastVerified) then
                && status == old(status) && practitioner == old(practitioner) && error == old(error)
                && requests == old(requests) && lastVerified == old(lastVerified)
                && awaiting == old(awaiting) && aborted == old(aborted)
              else
                && requests == old(requests) + [t] && lastVerified == t
                && status == Loading && practitioner.None? && error.None?
                && awaiting && !aborted
      ensures inputValue == old(inputValue) && timer == old(timer) && mounted == old(mounted)
    {
      var trimmed := Trim(regNo);
      if trimmed == [] || trimmed == lastVerified {
        return;
      }
      TrimIdempotent(regNo);
      requests := requests + [trimmed];
      awaiting := true;
      aborted := false;
      lastVerified := trimmed;
      status := Loading;
      error := None;
      practitioner := None;
    }

    /** A keystroke: record the value, cancel the pending timer, and either reset
        (blank value), keep everything (the number verified last), or clear the
        result and arm the timer for the trimmed value. No lookup is sent. */
    method SetInputValue(value: string)
      requires Consistent()
      modifies this
      ensures Consistent()
      ensures inputValue == value && requests == old(requests)
      ensures Trim(value) == [] ==>
        status == Idle && practitioner.None? && error.None? && lastVerified == [] && timer.None?
      ensures Trim(value) != [] && Trim(value) == old(lastVerified) ==>
        && timer.None? && status == old(status) && practitioner == old(practitioner)
        && error == old(error) && lastVerified == old(lastVerified)
      ensures Trim(value) != [] && Trim(value) != old(lastVerified) ==>
        && timer == Some(Trim(value)) && status == Idle && practitioner.None? && error.None?
        && lastVerified == old(lastVerified)
      ensures awaiting == old(awaiting) && mounted == old(mounted)
      ensures aborted == (old(aborted) || (Trim(value) == [] && requests != []))
    {
      inputValue := value;
      timer := None;
      var trimmed := Trim(value);
      if trimmed == [] {
        Reset();
      } else if trimmed != lastVerified {
        if status != Idle {
          status := Idle;
          practitioner := None;
          error := None;
        }
        timer := Some(trimmed);
      }
    }

    /** The debounce timer runs out and verifies the value it was armed with. */
    method TimerFires()
      requires Consistent()
      modifies this
      ensures Consistent()
      ensures timer.None? && inputValue == old(inputValue) && mounted == old(mounted)
      ensures old(timer).Some? ==>
        && requests == old(requests) + [old(timer).value] && lastVerified == old(timer).value
        && status == Loading && practitioner.None? && error.None? && awaiting && !aborted
      ensures old(timer).None? ==>
        && requests == old(requests) && status == old(status) && lastVerified == old(lastVerified)
        && practitioner == old(practitioner) && error == old(error)
        && awaiting == old(awaiting) && aborted == old(aborted)
    {
      if timer.Some? {
        var v := timer.value;
        timer := None;
        TrimOfTrimmed(v);
        Verify(v);
      }
    }

    /** Request `request` comes back. Only the newest request, not aborted, changes
        the result; its outcome becomes the status. */
    method Settle(request: nat, outcome: Outcome)
      requires Consistent()
      modifies this
      ensures Consistent()
      ensures if request == |requests| && old(awaiting) && !aborted
              then (status, practitioner, error) == Shown(outcome)
              else status == old(status) && practitioner == old(practitioner) && error == old(error)
      ensures awaiting == (old(awaiting) && request != |requests|)
      ensures inputValue == old(inputValue) && lastVerified == old(lastVerified)
      ensures timer == old(timer) && requests == old(requests) && aborted == old(aborted)
      ensures mounted == old(mounted)
    {
      if request != |requests| || !awaiting {
        return;
      }
      awaiting := false;
      if aborted {
        return;
      }
      status, practitioner, error := Shown(outcome).0, Shown(outcome).1, Shown(outcome).2;
    }

    /** The component unmounts: abort the current request and cancel the timer. */
    method Dispose()
      requires Consistent()
      modifies this
      ensures Consistent()
      ensures !mounted && timer.None? && aborted == (old(aborted) || requests != [])
      ensures status == old(status) && practitioner == old(practitioner) && error == old(error)
      ensures requests == old(requests) && lastVerified == old(lastVerified)
      ensures inputValue == old(inputValue) && awaiting == old(awaiting)
    {
      if requests != [] {
        aborted := true;
      }
      timer := None;
      mounted := false;
    }
  }

  /** Keystrokes closer together than the delay send one lookup, for the last value. */
  method TypingSendsOneLookup() returns (sent: seq<string>)
    ensures sent == ["123"]
  {
    TrimOfTrimmed("1");
    TrimOfTrimmed("12");
    assert SkipSpaceForward(" 123", 0) == SkipSpaceForward(" 123", 1) == 1;
    assert SkipSpaceBackward(" 123", 1, 4) == 4;
    assert Trim(" 123") == " 123"[1..4] == "123";
    var v := new SlmcVerification();
    v.SetInputValue("1");
    v.SetInputValue("12");
    v.SetInputValue(" 123");
    v.TimerFires();
    sent := v.requests;
  }

  /** An answer that arrives after the number was edited, but before the new timer
      runs out, is still applied: the edit clears the result but does not abort the
      request in flight. */
  method AnswerAfterEditStillApplies(p: SlmcPractitioner) returns (status: SlmcVerificationStatus, shown: Option<SlmcPractitioner>, input: string)
    ensures status == Valid && shown == Some(p) && input == "1234"
  {
    var v := new SlmcVerification();
    v.SetInputValue("123");
    v.TimerFires();
    v.SetInputValue("1234");
    v.Settle(1, Answered(SlmcVerifyRoute.Verified(p)));
    status, shown, input := v.status, v.practitioner, v.inputValue;
  }

  /** Editing a verified number and typing it back before the timer runs out
      leaves the result cleared and sends nothing: the number counts as verified
      though no result is shown. */
  method RetypedNumberStaysCleared(p: SlmcPractitioner) returns (status: SlmcVerificationStatus, shown: Option<SlmcPractitioner>, sent: seq<string>)
    ensures status == Idle && shown.None? && sent == ["123"]
  {
    TrimOfTrimmed("123");
    TrimOfTrimmed("1234");
    var v := new SlmcVerification();
    v.SetInputValue("123");
    v.TimerFires();
    v.Settle(1, Answered(SlmcVerifyRoute.Verified(p)));
    v.SetInputValue("1234");
    v.SetInputValue("123");
    v.TimerFires();
    status, shown, sent := v.status, v.practitioner, v.requests;
  }
}
