/** The button-to-keystroke state machine of the keyboard firmware, on values.
    A `Machine` holds every file-level static the firmware keeps; `Decide`
    is one call of the decision step, `Build` one call of the report
    builder, `Iteration` one pass of the main loop and `Run` a bounded
    number of passes. The class in module Device updates the same state in
    place and is proved against these functions. */
module Keyboard {
  import opened HidUsage

  /** The two-byte keyboard report and also a pending (modifier, key) pair. */
  datatype Report = Report(modifier: bv8, key: bv8)

  /** The all-keys-up report. */
  const Released := Report(0, 0)
  /** Left Control + C. */
  const CtrlC := Report(ModControlLeft, KeyC)
  /** Left Control + V. */
  const CtrlV := Report(ModControlLeft, KeyV)

  /** One sample of the three buttons: true means pressed (pin reads low). */
  datatype Buttons = Buttons(url: bool, copy: bool, paste: bool)

  /** What the USB driver's message pointer was last set to point at. */
  datatype MsgPtr = NoMsg | ToReportBuffer | ToIdleRate

  /** All file-level statics of the firmware. */
  datatype Machine = Machine(
    pressed: Buttons,        // the button...Pressed flags
    previously: Buttons,     // the button...PressedPreviously flags
    currentKey: bv8,
    currentMod: bv8,
    urlIndex: int,
    processAvailable: bool,
    reportBuffer: Report,
    idleRate: bv8,
    msgPtr: MsgPtr)

  /** The keystroke decided but not yet copied into the report buffer. */
  function Pending(m: Machine): Report {
    Report(m.currentMod, m.currentKey)
  }

  /** A not-pressed to pressed transition between two samples. */
  predicate Edge(now: bool, before: bool) {
    now && !before
  }

  /** The facts the statics keep between any two steps of the firmware. */
  predicate Inv(m: Machine) {
    // the URL cursor stays within the table, one past its end at most
    && 0 <= m.urlIndex <= ButtonUrlLen
    // when the gate is open the pending keystroke has been consumed
    && (m.processAvailable ==> Pending(m) == Released)
    // a pending Ctrl+C / Ctrl+V was decided on a press that is remembered
    && (Pending(m) == CtrlC ==> m.previously.copy)
    && (Pending(m) == CtrlV ==> m.previously.paste)
    // after a Ctrl+C / Ctrl+V report, the next decision cannot repeat it
    && (m.reportBuffer == CtrlC ==>
          if m.processAvailable then m.previously.copy else Pending(m) != CtrlC)
    && (m.reportBuffer == CtrlV ==>
          if m.processAvailable then m.previously.paste else Pending(m) != CtrlV)
  }

  /** The statics as `main` leaves them before entering its loop; the
      report buffer and the idle rate keep the zero of static storage. */
  function Init(): (m: Machine)
    ensures Inv(m)
    ensures m.processAvailable && m.urlIndex == 0 && m.reportBuffer == Released
    ensures m.pressed == Buttons(false, false, false) && m.previously == Buttons(false, false, false)
  {
    Machine(Buttons(false, false, false), Buttons(false, false, false),
            0, 0, 0, true, Released, 0, NoMsg)
  }

  /** One call of the decision step with button sample `b`. A closed gate
      makes it do nothing at all, not even sample; otherwise it continues
      the URL sequence or looks for an edge, closes the gate and remembers
      the sample for the next edge detection. */
  function Decide(m: Machine, b: Buttons): (r: Machine)
    ensures !m.processAvailable ==> r == m
    ensures m.processAvailable ==> !r.processAvailable && r.pressed == b && r.previously == b
    ensures r.reportBuffer == m.reportBuffer && r.idleRate == m.idleRate && r.msgPtr == m.msgPtr
  {
    if !m.processAvailable then m
    else
      var d :=
        if m.urlIndex > 0 then
          if m.urlIndex < ButtonUrlLen then
            m.(currentKey := ButtonUrl[m.urlIndex], currentMod := 0, urlIndex := m.urlIndex + 1)
          else
            m.(urlIndex := 0)
        else if Edge(b.url, m.previously.url) then
          m.(currentKey := ButtonUrl[0], currentMod := 0, urlIndex := 1)
        else if Edge(b.copy, m.previously.copy) then
          m.(currentKey := KeyC, currentMod := ModControlLeft)
        else if Edge(b.paste, m.previously.paste) then
          m.(currentKey := KeyV, currentMod := ModControlLeft)
        else
          m.(currentKey := 0, currentMod := 0);
      d.(processAvailable := false, pressed := b, previously := b)
  }

  /** The decision step keeps the invariant. */
  lemma DecideKeepsInv(m: Machine, b: Buttons)
    ensures Inv(m) ==> Inv(Decide(m, b))
  {
  }

  /** One call of the report builder: the pending keystroke becomes the
      report, the pending pair is cleared and the gate reopens. */
  function Build(m: Machine): (r: Machine)
    ensures r.reportBuffer == Pending(m)
    ensures r.processAvailable && Pending(r) == Released
    ensures r.urlIndex == m.urlIndex && r.pressed == m.pressed && r.previously == m.previously
    ensures r.idleRate == m.idleRate && r.msgPtr == m.msgPtr
    ensures Inv(m) ==> Inv(r)
  {
    m.(reportBuffer := Pending(m), currentKey := 0, currentMod := 0, processAvailable := true)
  }

  /** What one pass of the main loop sees: the button sample and whether
      the driver's interrupt endpoint is ready for a new report. */
  datatype Input = Input(buttons: Buttons, ready: bool)

  /** One pass of the main loop: decide, then build if the endpoint is ready. */
  function Iteration(m: Machine, i: Input): (r: Machine)
    ensures i.ready ==> r.reportBuffer == Pending(Decide(m, i.buttons))
    ensures i.ready ==> r.processAvailable && Pending(r) == Released
    ensures !i.ready ==> !r.processAvailable && r.reportBuffer == m.reportBuffer
    ensures r.idleRate == m.idleRate && r.msgPtr == m.msgPtr
    ensures Inv(m) ==> Inv(r)
  {
    DecideKeepsInv(m, i.buttons);
    var d := Decide(m, i.buttons);
    if i.ready then Build(d) else d
  }

  /** The report a pass hands to the driver: the report buffer after a
      ready pass, nothing otherwise. */
  function Sent(after: Machine, i: Input): seq<Report> {
    if i.ready then [after.reportBuffer] else []
  }

  /** The final statics and the reports submitted by a bounded run. */
  datatype Outcome = Outcome(final: Machine, submitted: seq<Report>)

  /** Number of passes in which the endpoint was ready. */
  function ReadyCount(ins: seq<Input>): nat {
    if ins == [] then 0 else (if ins[0].ready then 1 else 0) + ReadyCount(ins[1..])
  }

  /** `|ins|` passes of the main loop from `m`. One report is submitted per
      ready pass, and the report buffer always holds the last one. */
  function Run(m: Machine, ins: seq<Input>): (o: Outcome)
    ensures |o.submitted| == ReadyCount(ins)
    ensures o.submitted == [] ==> o.final.reportBuffer == m.reportBuffer
    ensures o.submitted != [] ==> o.final.reportBuffer == o.submitted[|o.submitted| - 1]
    ensures o.final.idleRate == m.idleRate && o.final.msgPtr == m.msgPtr
    ensures Inv(m) ==> Inv(o.final)
    decreases |ins|
  {
    if ins == [] then Outcome(m, [])
    else
      var m1 := Iteration(m, ins[0]);
      var rest := Run(m1, ins[1..]);
      Outcome(rest.final, Sent(m1, ins[0]) + rest.submitted)
  }

  /** Running one more pass extends the run by that pass. */
  lemma {:induction false} RunSnoc(m: Machine, ins: seq<Input>, i: Input)
    ensures Run(m, ins + [i]).final == Iteration(Run(m, ins).final, i)
    ensures Run(m, ins + [i]).submitted
            == Run(m, ins).submitted + Sent(Iteration(Run(m, ins).final, i), i)
    decreases |ins|
  {
    if ins == [] {
      assert ins + [i] == [i] && [i][1..] == [];
    } else {
      var m1 := Iteration(m, ins[0]);
      assert (ins + [i])[0] == ins[0];
      assert (ins + [i])[1..] == ins[1..] + [i];
      RunSnoc(m1, ins[1..], i);
      var before := Run(m1, ins[1..]);
      var after := Run(m1, ins[1..] + [i]);
      assert Run(m, ins + [i]) == Outcome(after.final, Sent(m1, ins[0]) + after.submitted);
      assert Run(m, ins) == Outcome(before.final, Sent(m1, ins[0]) + before.submitted);
    }
  }

  // ---------------------------------------------------------------------
  // The decision step

  /** A closed gate: nothing is sampled, decided or remembered, and a
      second pass without a ready endpoint changes nothing either. */
  lemma ClosedGateStutters(m: Machine, b1: Buttons, b2: Buttons)
    ensures !m.processAvailable ==> Decide(m, b1) == m
    ensures Iteration(Iteration(m, Input(b1, false)), Input(b2, false))
            == Iteration(m, Input(b1, false))
  {
  }

  /** In the idle state the first matching edge wins, URL before Copy
      before Paste; without an edge the released keystroke is pending. */
  lemma IdleDecision(m: Machine, b: Buttons)
    requires Inv(m) && m.processAvailable && m.urlIndex == 0
    ensures var r := Decide(m, b);
      var url, copy, paste :=
        Edge(b.url, m.previously.url), Edge(b.copy, m.previously.copy),
        Edge(b.paste, m.previously.paste);
      && ((r.urlIndex == 1 && Pending(r) == Report(0, ButtonUrl[0])) <==> url)
      && (r.urlIndex == 0 <==> !url)
      && (Pending(r) == CtrlC <==> !url && copy)
      && (Pending(r) == CtrlV <==> !url && !copy && paste)
      && (Pending(r) == Released <==> !url && !copy && !paste)
  {
  }

  /** While the URL sequence runs, the next table entry is pending with no
      modifier; once the cursor is past the table it is reset to 0 and,
      since that branch assigns no keystroke, the released one is pending. */
  lemma SequencingDecision(m: Machine, b: Buttons)
    requires Inv(m) && m.processAvailable && m.urlIndex > 0
    ensures var r := Decide(m, b);
      if m.urlIndex < ButtonUrlLen then
        Pending(r) == Report(0, ButtonUrl[m.urlIndex]) && r.urlIndex == m.urlIndex + 1
      else
        Pending(r) == Released && r.urlIndex == 0
  {
  }

  /** While the URL sequence runs, the buttons do not influence the
      decision; they are only remembered, so a press made meanwhile is
      not an edge afterwards. */
  lemma SequencingIgnoresButtons(m: Machine, b1: Buttons, b2: Buttons)
    requires m.processAvailable && m.urlIndex > 0
    ensures Decide(m, b1).(pressed := b2, previously := b2) == Decide(m, b2)
    ensures Decide(m, b1).previously == b1
  {
  }

  /** A Ctrl+C decision needs a Copy edge and a Ctrl+V decision a Paste
      edge, so a held button yields its keystroke at most once. */
  lemma HeldButtonDoesNotRepeat(m: Machine, b: Buttons)
    requires Inv(m) && m.processAvailable
    ensures m.previously.copy ==> Pending(Decide(m, b)) != CtrlC
    ensures m.previously.paste ==> Pending(Decide(m, b)) != CtrlV
  {
  }

  // ---------------------------------------------------------------------
  // The URL sequence

  /** The reports that type the table from position `k` on, no modifier. */
  function UrlReports(k: nat): (rs: seq<Report>)
    requires k <= ButtonUrlLen
    ensures |rs| == ButtonUrlLen - k
    ensures forall j :: 0 <= j < |rs| ==> rs[j] == Report(0, ButtonUrl[k + j])
    decreases ButtonUrlLen - k
  {
    if k == ButtonUrlLen then [] else [Report(0, ButtonUrl[k])] + UrlReports(k + 1)
  }

  /** All inputs have a ready endpoint. */
  predicate AllReady(ins: seq<Input>) {
    forall j :: 0 <= j < |ins| ==> ins[j].ready
  }

  /** With the cursor at `k` in 1..18 and a ready endpoint on every pass,
      the next 18 - k passes submit table entries k..17 in order and the
      pass after them submits the released report and resets the cursor,
      whatever the buttons do. */
  lemma {:induction false} UrlContinues(m: Machine, ins: seq<Input>)
    requires Inv(m) && m.processAvailable && 1 <= m.urlIndex <= ButtonUrlLen
    requires |ins| == ButtonUrlLen + 1 - m.urlIndex && AllReady(ins)
    ensures Run(m, ins).submitted == UrlReports(m.urlIndex) + [Released]
    ensures Run(m, ins).final.urlIndex == 0 && Run(m, ins).final.processAvailable
    decreases ButtonUrlLen - m.urlIndex
  {
    var m1 := Iteration(m, ins[0]);
    SequencingDecision(m, ins[0].buttons);
    if m.urlIndex < ButtonUrlLen {
      assert AllReady(ins[1..]) by {
        forall j | 0 <= j < |ins[1..]| ensures ins[1..][j].ready {
          assert ins[1..][j] == ins[j + 1];
        }
      }
      UrlContinues(m1, ins[1..]);
      assert UrlReports(m.urlIndex) == [m1.reportBuffer] + UrlReports(m.urlIndex + 1);
    } else {
      assert ins[1..] == [];
    }
  }

  /** From idle with an open gate, a URL edge followed by ready passes
      submits the 18 table entries in order with no modifier and no
      released report between them (`UrlReports(0)`), then the released
      report, and leaves the cursor at 0 again. */
  lemma UrlSequence(m: Machine, ins: seq<Input>)
    requires Inv(m) && m.processAvailable && m.urlIndex == 0
    requires |ins| == ButtonUrlLen + 1 && AllReady(ins)
    requires Edge(ins[0].buttons.url, m.previously.url)
    ensures Run(m, ins).submitted == UrlReports(0) + [Released]
    ensures Run(m, ins).final.urlIndex == 0
  {
    var d := Decide(m, ins[0].buttons);
    assert d.urlIndex == 1 && Pending(d) == Report(0, ButtonUrl[0]);
    var m1 := Iteration(m, ins[0]);
    assert m1 == Build(d) && Inv(m1);
    assert AllReady(ins[1..]) by {
      forall j | 0 <= j < |ins[1..]| ensures ins[1..][j].ready {
        assert ins[1..][j] == ins[j + 1];
      }
    }
    UrlContinues(m1, ins[1..]);
    var rest := Run(m1, ins[1..]);
    assert Run(m, ins) == Outcome(rest.final, [m1.reportBuffer] + rest.submitted);
    assert UrlReports(0) == [Report(0, ButtonUrl[0])] + UrlReports(1);
  }

  // ---------------------------------------------------------------------
  // One-shot keystrokes

  /** No two consecutive entries of `s` are both `k`. */
  predicate NoRepeat(s: seq<Report>, k: Report) {
    forall j :: 0 <= j < |s| - 1 ==> !(s[j] == k && s[j + 1] == k)
  }

  /** After a Ctrl+C (Ctrl+V) report, the next report submitted is not
      Ctrl+C (Ctrl+V) again. */
  lemma NextReportDiffers(m: Machine, i: Input)
    requires Inv(m) && i.ready
    ensures m.reportBuffer == CtrlC ==> Iteration(m, i).reportBuffer != CtrlC
    ensures m.reportBuffer == CtrlV ==> Iteration(m, i).reportBuffer != CtrlV
  {
  }

  /** Over any run, with any readiness of the endpoint, the report stream
      (starting with the report already in the buffer) never holds Ctrl+C
      twice in a row, nor Ctrl+V twice in a row. */
  lemma {:induction false} OneShotRun(m: Machine, ins: seq<Input>, k: Report)
    requires Inv(m) && (k == CtrlC || k == CtrlV)
    ensures NoRepeat([m.reportBuffer] + Run(m, ins).submitted, k)
    decreases |ins|
  {
    if ins != [] {
      var m1 := Iteration(m, ins[0]);
      var rest := Run(m1, ins[1..]);
      OneShotRun(m1, ins[1..], k);
      if ins[0].ready {
        NextReportDiffers(m, ins[0]);
        assert [m.reportBuffer] + Run(m, ins).submitted
               == [m.reportBuffer] + ([m1.reportBuffer] + rest.submitted);
      } else {
        assert [m.reportBuffer] + Run(m, ins).submitted == [m1.reportBuffer] + rest.submitted;
      }
    }
  }

  /** From power-on, the submitted reports never repeat Ctrl+C or Ctrl+V
      back to back: each press of Copy or Paste is one keystroke, followed
      by a different report. */
  lemma OneShotFromPowerOn(ins: seq<Input>)
    ensures NoRepeat(Run(Init(), ins).submitted, CtrlC)
    ensures NoRepeat(Run(Init(), ins).submitted, CtrlV)
  {
    var s := Run(Init(), ins).submitted;
    OneShotRun(Init(), ins, CtrlC);
    OneShotRun(Init(), ins, CtrlV);
    assert ([Init().reportBuffer] + s)[1..] == s;
    forall j | 0 <= j < |s| - 1
      ensures !(s[j] == CtrlC && s[j + 1] == CtrlC) && !(s[j] == CtrlV && s[j + 1] == CtrlV)
    {
      assert s[j] == ([Init().reportBuffer] + s)[j + 1];
      assert s[j + 1] == ([Init().reportBuffer] + s)[j + 2];
    }
  }

  /** A one-shot keystroke is not always followed by the released report:
      from power-on, Copy pressed and then Paste pressed while Copy is
      still held send Ctrl+C and then Ctrl+V directly. */
  lemma CopyThenPaste()
    ensures Run(Init(), [Input(Buttons(false, true, false), true),
                         Input(Buttons(false, true, true), true)]).submitted
            == [CtrlC, CtrlV]
  {
  }

  /** Likewise, a URL press right after Copy sends Ctrl+C and then the
      first URL key directly. */
  lemma CopyThenUrl()
    ensures Run(Init(), [Input(Buttons(false, true, false), true),
                         Input(Buttons(true, true, false), true)]).submitted
            == [CtrlC, Report(0, ButtonUrl[0])]
  {
  }
}
