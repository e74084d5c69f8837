/** The firmware's file-level statics as the fields of one object, and its
    routines as methods that update them in place. Each method is proved
    against the function of module Keyboard or Control that gives the new
    statics from the old ones; what those functions promise is proved there. */
module Device {
  import opened HidUsage
  import opened Keyboard
  import opened Control

  class Firmware {
    var reportBuffer: Report
    var idleRate: bv8
    var msgPtr: MsgPtr

    var buttonUrlPressed: bool
    var buttonUrlPressedPreviously: bool
    var buttonCopyPressed: bool
    var buttonCopyPressedPreviously: bool
    var buttonPastePressed: bool
    var buttonPastePressedPreviously: bool

    var currentKey: bv8
    var currentMod: bv8
    var urlIndex: int

    var processAvailable: bool

    /** The statics as one value. */
    function State(): Machine
      reads this
    {
      Machine(
        Buttons(buttonUrlPressed, buttonCopyPressed, buttonPastePressed),
        Buttons(buttonUrlPressedPreviously, buttonCopyPressedPreviously,
                buttonPastePressedPreviously),
        currentKey, currentMod, urlIndex, processAvailable,
        reportBuffer, idleRate, msgPtr)
    }

    ghost predicate Valid()
      reads this
    {
      Inv(State())
    }

    /** The statics as `main` initialises them before its loop. */
    constructor ()
      ensures Valid()
      ensures State() == Init()
    {
      reportBuffer := Released;
      idleRate := 0;
      msgPtr := NoMsg;
      buttonUrlPressed, buttonUrlPressedPreviously := false, false;
      buttonCopyPressed, buttonCopyPressedPreviously := false, false;
      buttonPastePressed, buttonPastePressedPreviously := false, false;
      currentKey, currentMod, urlIndex := 0, 0, 0;
      processAvailable := true;
    }

    /** The decision step; the three arguments are the sampled buttons. */
    method ProcessData(urlPressed: bool, copyPressed: bool, pastePressed: bool)
      requires Valid()
      modifies this
      ensures Valid()
      ensures State() == Decide(old(State()), Buttons(urlPressed, copyPressed, pastePressed))
    {
      ghost var m := State();
      DecideKeepsInv(m, Buttons(urlPressed, copyPressed, pastePressed));
      if processAvailable {
        buttonUrlPressed := urlPressed;
        buttonCopyPressed := copyPressed;
        buttonPastePressed := pastePressed;

        if urlIndex > 0 {
          if urlIndex < ButtonUrlLen {
            currentKey := ButtonUrl[urlIndex];
            currentMod := 0;
            urlIndex := urlIndex + 1;
          } else {
            urlIndex := 0;
          }
          processAvailable := false;
        } else {
          if buttonUrlPressed && !buttonUrlPressedPreviously {
            currentKey := ButtonUrl[0];
            currentMod := 0;
            urlIndex := 1;
          } else if buttonCopyPressed && !buttonCopyPressedPreviously {
            currentKey := KeyC;
            currentMod := ModControlLeft;
          } else if buttonPastePressed && !buttonPastePressedPreviously {
            currentKey := KeyV;
            currentMod := ModControlLeft;
          } else {
            currentKey := 0;
            currentMod := 0;
          }
          processAvailable := false;
        }

        buttonUrlPressedPreviously := buttonUrlPressed;
        buttonCopyPressedPreviously := buttonCopyPressed;
        buttonPastePressedPreviously := buttonPastePressed;
      }
      assert State() == Decide(m, Buttons(urlPressed, copyPressed, pastePressed));
    }

    /** The report builder. */
    method BuildReport()
      requires Valid()
      modifies this
      ensures Valid()
      ensures State() == Build(old(State()))
    {
      reportBuffer := Report(currentMod, currentKey);
      currentKey := 0;
      currentMod := 0;
      processAvailable := true;
    }

    /** The setup callback for the 8-byte setup packet `data`; returns the
        number of bytes of the object `msgPtr` names to send back. */
    method UsbFunctionSetup(data: seq<bv8>) returns (len: nat)
      requires |data| == 8 && Valid()
      modifies this
      ensures Valid()
      ensures SetupResult(State(), len) == Setup(old(State()), data)
    {
      if data[0] & TypeMask == TypeClass {
        if data[1] == HidGetReport {
          msgPtr := ToReportBuffer;
          return 2;
        } else if data[1] == HidGetIdle {
          msgPtr := ToIdleRate;
          return 1;
        } else if data[1] == HidSetIdle {
          idleRate := data[3];
        }
      }
      return 0;
    }

    /** One pass of the main loop: the buttons as sampled, and whether the
        interrupt endpoint is ready; returns the report handed to the
        driver, if any. */
    method LoopBody(urlPressed: bool, copyPressed: bool, pastePressed: bool, ready: bool)
      returns (sent: seq<Report>)
      requires Valid()
      modifies this
      ensures Valid()
      ensures State() == Iteration(old(State()), Input(Buttons(urlPressed, copyPressed, pastePressed), ready))
      ensures sent == Sent(State(), Input(Buttons(urlPressed, copyPressed, pastePressed), ready))
    {
      ProcessData(urlPressed, copyPressed, pastePressed);
      sent := [];
      if ready {
        BuildReport();
        sent := [reportBuffer];
      }
    }

    /** `|ins|` passes of the main loop; returns the reports handed to the
        driver, in order. */
    method MainLoop(ins: seq<Input>) returns (submitted: seq<Report>)
      requires Valid()
      modifies this
      ensures Valid()
      ensures Outcome(State(), submitted) == Run(old(State()), ins)
    {
      ghost var m0 := State();
      submitted := [];
      var k := 0;
      while k < |ins|
        invariant 0 <= k <= |ins|
        invariant Valid()
        invariant Outcome(State(), submitted) == Run(m0, ins[..k])
      {
        var i := ins[k];
        var sent := LoopBody(i.buttons.url, i.buttons.copy, i.buttons.paste, i.ready);
        RunSnoc(m0, ins[..k], i);
        assert ins[..k + 1] == ins[..k] + [i];
        submitted := submitted + sent;
        k := k + 1;
      }
      assert ins[..|ins|] == ins;
    }
  }
}
