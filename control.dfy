/** The class-specific control requests of section 7.2 of the USB Device
    Class Definition for HID 1.11, as the firmware's setup callback answers
    them. The 8-byte setup packet is laid out as section 9.3 of the USB 2.0
    specification gives it: bmRequestType, bRequest, wValue (low byte
    first), wIndex, wLength. The callback returns how many bytes of the
    object the message pointer names are to be sent back. */
module Control {
  import opened Keyboard

  /** Bits 6..5 of bmRequestType give the request type; 1 is "class". */
  const TypeMask: bv8 := 0x60
  const TypeClass: bv8 := 0x20

  /** HID class request codes, HID 1.11 section 7.2. */
  const HidGetReport: bv8 := 0x01
  const HidGetIdle: bv8 := 0x02
  const HidSetIdle: bv8 := 0x0a

  /** The setup packet carries a class request. */
  predicate IsClass(data: seq<bv8>)
    requires |data| == 8
  {
    data[0] & TypeMask == TypeClass
  }

  /** A class request with the given request code. */
  predicate IsClassRequest(data: seq<bv8>, code: bv8)
    requires |data| == 8
  {
    IsClass(data) && data[1] == code
  }

  /** The statics after the callback and the length it returns. */
  datatype SetupResult = SetupResult(after: Machine, len: nat)

  /** The bytes of the object the message pointer names; the report
      buffer is laid out modifier first. */
  function Message(m: Machine): seq<bv8> {
    match m.msgPtr
    case NoMsg => []
    case ToReportBuffer => [m.reportBuffer.modifier, m.reportBuffer.key]
    case ToIdleRate => [m.idleRate]
  }

  /** One call of the setup callback. Only the idle rate and the message
      pointer can change; the idle rate only through Set_Idle, which stores
      the high byte of wValue (the duration field); a non-zero length is
      only returned for a class request, and never exceeds the object the
      message pointer names. */
  function Setup(m: Machine, data: seq<bv8>): (r: SetupResult)
    requires |data| == 8
    ensures r.after == m.(idleRate := r.after.idleRate, msgPtr := r.after.msgPtr)
    ensures r.after.idleRate != m.idleRate ==> IsClassRequest(data, HidSetIdle)
    ensures r.after.msgPtr != m.msgPtr ==> r.len > 0
    ensures r.len > 0 ==> IsClass(data) && r.len <= |Message(r.after)|
    ensures Inv(m) ==> Inv(r.after)
  {
    if IsClass(data) then
      if data[1] == HidGetReport then SetupResult(m.(msgPtr := ToReportBuffer), 2)
      else if data[1] == HidGetIdle then SetupResult(m.(msgPtr := ToIdleRate), 1)
      else if data[1] == HidSetIdle then SetupResult(m.(idleRate := data[3]), 0)
      else SetupResult(m, 0)
    else
      SetupResult(m, 0)
  }

  /** The bytes sent back to the host for a callback result. */
  function Reply(r: SetupResult): seq<bv8>
    requires r.len <= |Message(r.after)|
  {
    Message(r.after)[..r.len]
  }

  /** Get_Report answers with the two bytes of the report buffer. */
  lemma GetReportReply(m: Machine, data: seq<bv8>)
    requires |data| == 8 && IsClassRequest(data, HidGetReport)
    ensures Setup(m, data).len == 2
    ensures Reply(Setup(m, data)) == [m.reportBuffer.modifier, m.reportBuffer.key]
  {
  }

  /** Get_Idle answers with the one byte of the stored idle rate. */
  lemma GetIdleReply(m: Machine, data: seq<bv8>)
    requires |data| == 8 && IsClassRequest(data, HidGetIdle)
    ensures Setup(m, data).len == 1
    ensures Reply(Setup(m, data)) == [m.idleRate]
  {
  }

  /** Set_Idle stores the duration byte and returns no data; a following
      Get_Idle answers with exactly that byte. */
  lemma SetIdleThenGetIdle(m: Machine, setIdle: seq<bv8>, getIdle: seq<bv8>)
    requires |setIdle| == 8 && IsClassRequest(setIdle, HidSetIdle)
    requires |getIdle| == 8 && IsClassRequest(getIdle, HidGetIdle)
    ensures Setup(m, setIdle).len == 0 && Setup(m, setIdle).after.idleRate == setIdle[3]
    ensures Setup(Setup(m, setIdle).after, getIdle).len == 1
    ensures Reply(Setup(Setup(m, setIdle).after, getIdle)) == [setIdle[3]]
  {
  }

  /** A request that is not a class request, or a class request other than
      Get_Report, Get_Idle and Set_Idle, is answered with length 0 and
      changes nothing. */
  lemma OtherRequestsIgnored(m: Machine, data: seq<bv8>)
    requires |data| == 8
    requires !IsClass(data) || data[1] !in {HidGetReport, HidGetIdle, HidSetIdle}
    ensures Setup(m, data) == SetupResult(m, 0)
  {
  }

  /** After any run of the main loop that submitted a report, Get_Report
      answers with the bytes of the last report submitted. */
  lemma GetReportAfterRun(m: Machine, ins: seq<Input>, data: seq<bv8>)
    requires |data| == 8 && IsClassRequest(data, HidGetReport)
    requires Run(m, ins).submitted != []
    ensures var s := Run(m, ins).submitted;
      Reply(Setup(Run(m, ins).final, data)) == [s[|s| - 1].modifier, s[|s| - 1].key]
  {
    GetReportReply(Run(m, ins).final, data);
  }

  /** The driver answers control requests while it is polled, which falls
      between the decision step and the report builder of a loop pass. A
      request answered there does not change the report about to be built,
      nor anything else the keyboard state machine uses. */
  lemma SetupInsidePass(m: Machine, b: Buttons, data: seq<bv8>)
    requires |data| == 8
    ensures var d := Decide(m, b);
      Build(Setup(d, data).after).reportBuffer == Build(d).reportBuffer
    ensures var d := Decide(m, b);
      Build(Setup(d, data).after).(idleRate := d.idleRate, msgPtr := d.msgPtr) == Build(d)
  {
  }
}
