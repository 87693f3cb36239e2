/**
 * The light's command encoding: which characteristic each command goes to,
 * how its numbers are checked, and the framed payload written there.
 */
module Protocol {
  import opened Wrappers
  import opened Decimal
  import opened Framing
  import opened Fields

  /** The vendor service's characteristics, as opaque distinct identifiers (UUIDs 0000FFF1 … 0000FFFC). */
  datatype Characteristic =
    | CharControl | CharDelay | CharDelayQuery | CharDelayNotify | CharQuery | CharNotify
    | CharColorFlow | CharName | CharNameNotify | CharColorEffect

  /** One payload written to one characteristic. */
  datatype Write = Write(target: Characteristic, payload: string)

  /** The checks that fail an encoder (each is a failed `assert` in the client). */
  datatype Error = RangeError | TooManySteps | BadStep(index: nat)

  const ControlLength: nat := 18
  const DelayLength: nat := 8
  const FlowLength: nat := 20
  const MaxFlowSteps: nat := 9
  const MinutesPerDay: nat := 24 * 60

  // ---------------------------------------------------------------- control

  predicate ValidColor(r: int, g: int, b: int, a: int) {
    0 <= r <= 255 && 0 <= g <= 255 && 0 <= b <= 255 && 0 <= a <= 100
  }

  /** `"%d,%d,%d,%d" % (r, g, b, a)` */
  function ControlText(r: nat, g: nat, b: nat, a: nat): string {
    Join([r, g, b, a])
  }

  /** A valid colour's text is at most 15 characters, so it always fits its 18-character frame. */
  lemma ControlTextWidth(r: int, g: int, b: int, a: int)
    requires ValidColor(r, g, b, a)
    ensures |ControlText(r, g, b, a)| <= 15
    ensures ControlText(r, g, b, a) == Render(r) + "," + Render(g) + "," + Render(b) + "," + Render(a)
  {
    Join4(r, g, b, a);
    RenderWidths(r);
    RenderWidths(g);
    RenderWidths(b);
    RenderWidths(a);
  }

  /** The payload `control(r, g, b, a)` writes to the control characteristic. */
  function ControlRequest(r: int, g: int, b: int, a: int): (res: Result<string, Error>)
    ensures res.Ok? <==> ValidColor(r, g, b, a)
    ensures ValidColor(r, g, b, a) ==>
      var text := ControlText(r, g, b, a);
      && |res.value| == ControlLength
      && res.value == text + Commas(ControlLength - |text|)
      && DecodeFields(res.value) == Some([r as nat, g as nat, b as nat, a as nat])
    ensures !ValidColor(r, g, b, a) ==> res == Err(RangeError)
  {
    if ValidColor(r, g, b, a) then
      ControlTextWidth(r, g, b, a);
      FramedFieldsRoundTrip([r, g, b, a], ControlLength);
      Ok(FormatRequest(ControlText(r, g, b, a), ControlLength))
    else
      Err(RangeError)
  }

  // ---------------------------------------------------------------- delay

  predicate ValidDelay(mins: int) {
    0 < mins < MinutesPerDay
  }

  function Switch(on: bool): nat {
    if on then 1 else 0
  }

  /** `"%d,1" % mins` to switch on, `"%d,0" % mins` to switch off. */
  function DelayText(mins: nat, on: bool): string {
    Join([mins, Switch(on)])
  }

  /** A valid delay's text is at most 6 characters, so it always fits its 8-character frame. */
  lemma DelayTextWidth(mins: int, on: bool)
    requires ValidDelay(mins)
    ensures |DelayText(mins, on)| <= 6
    ensures DelayText(mins, on) == Render(mins) + "," + (if on then "1" else "0")
  {
    Join2(mins, Switch(on));
    RenderWidths(mins);
  }

  /** The payload `delay_on(mins)` (on) or `delay_off(mins)` (off) writes to the delay characteristic. */
  function DelayRequest(mins: int, on: bool): (res: Result<string, Error>)
    ensures res.Ok? <==> ValidDelay(mins)
    ensures ValidDelay(mins) ==>
      var text := DelayText(mins, on);
      && |res.value| == DelayLength
      && res.value == text + Commas(DelayLength - |text|)
      && DecodeFields(res.value) == Some([mins as nat, Switch(on)])
    ensures !ValidDelay(mins) ==> res == Err(RangeError)
  {
    if ValidDelay(mins) then
      DelayTextWidth(mins, on);
      FramedFieldsRoundTrip([mins, Switch(on)], DelayLength);
      Ok(FormatRequest(DelayText(mins, on), DelayLength))
    else
      Err(RangeError)
  }

  // ---------------------------------------------------------------- fixed tokens

  /** `delay_status` writes "RT" framed to 2: the token unchanged. */
  function DelayQueryPayload(): (p: string)
    ensures p == "RT"
  {
    FormatRequest("RT", 2)
  }

  /** `control_status` writes "S" framed to 1: the token unchanged. */
  function StatusQueryPayload(): (p: string)
    ensures p == "S"
  {
    FormatRequest("S", 1)
  }

  /** The two colour-flow control commands: the commit that ends `start_color_flow`, and `stop_color_flow`. */
  datatype FlowControl = Commit | Stop

  function FlowControlToken(c: FlowControl): string {
    match c
    case Commit => "CB"
    case Stop => "CE"
  }

  /** A flow control command is its two-letter token padded to 20, and reads back as that token. */
  function FlowControlPayload(c: FlowControl): (p: string)
    ensures |p| == FlowLength && p == FlowControlToken(c) + Commas(18) && Unframe(p) == FlowControlToken(c)
  {
    UnframeFormatRequest(FlowControlToken(c), FlowLength);
    FormatRequest(FlowControlToken(c), FlowLength)
  }

  /** The three colour-change effects. */
  datatype Effect = Smooth | Immediate | CurrentColor

  function EffectToken(e: Effect): string {
    match e
    case Smooth => "TS"
    case Immediate => "TE"
    case CurrentColor => "DF"
  }

  /** `effect_smooth`, `effect_immediate`, `effect_current_color` write their token framed to 2: unchanged. */
  function EffectPayload(e: Effect): (p: string)
    ensures p == EffectToken(e) && |p| == 2
  {
    FormatRequest(EffectToken(e), 2)
  }

  /** Distinct effects are written as distinct payloads. */
  lemma EffectPayloadInjective(e1: Effect, e2: Effect)
    ensures EffectPayload(e1) == EffectPayload(e2) ==> e1 == e2
  {
    if EffectPayload(e1) == EffectPayload(e2) {
      assert EffectToken(e1)[0] == EffectToken(e2)[0] && EffectToken(e1)[1] == EffectToken(e2)[1];
    }
  }

  // ---------------------------------------------------------------- colour flow

  /** A flow step is (r, g, b, brightness, delay seconds). */
  predicate ValidStep(e: seq<int>) {
    |e| == 5 && 0 <= e[0] <= 255 && 0 <= e[1] <= 255 && 0 <= e[2] <= 255
    && 0 <= e[3] <= 100 && 0 <= e[4] <= 10
  }

  /** Step `i`'s fields: its position first, then the step's five numbers. */
  function StepFields(i: nat, e: seq<int>): seq<nat>
    requires ValidStep(e)
  {
    [i, e[0] as nat, e[1] as nat, e[2] as nat, e[3] as nat, e[4] as nat]
  }

  /** `"%d,%d,%d,%d,%d,%d" % (i, r, g, b, brightness, delay)` */
  function StepText(i: nat, e: seq<int>): string
    requires ValidStep(e)
  {
    Join(StepFields(i, e))
  }

  /** A valid step at a single-digit position renders in at most 20 characters. */
  lemma StepTextWidth(i: nat, e: seq<int>)
    requires i <= 9 && ValidStep(e)
    ensures |StepText(i, e)| <= FlowLength
  {
    Join6(i, e[0], e[1], e[2], e[3], e[4]);
    RenderWidths(i);
    RenderWidths(e[0]);
    RenderWidths(e[1]);
    RenderWidths(e[2]);
    RenderWidths(e[3]);
    RenderWidths(e[4]);
  }

  /** The bound is tight: the widest valid step fills its frame exactly. */
  lemma WidestStepFillsFrame()
    ensures |StepText(8, [255, 255, 255, 100, 10])| == FlowLength
  {
    Join6(8, 255, 255, 255, 100, 10);
    RenderWidest();
  }

  /** The payload written for step `i` of a colour flow. */
  function StepPayload(i: nat, e: seq<int>): string
    requires i < MaxFlowSteps && ValidStep(e)
  {
    FormatRequest(StepText(i, e), FlowLength)
  }

  /**
   * A step's payload is its text padded to exactly 20 characters (the filler
   * fallback never occurs), and it reads back as the step's position and numbers.
   */
  lemma StepPayloadSpec(i: nat, e: seq<int>)
    requires i < MaxFlowSteps && ValidStep(e)
    ensures |StepPayload(i, e)| == FlowLength
    ensures StepPayload(i, e) == StepText(i, e) + Commas(FlowLength - |StepText(i, e)|)
    ensures DecodeFields(StepPayload(i, e)) == Some(StepFields(i, e))
  {
    StepTextWidth(i, e);
    FramedFieldsRoundTrip(StepFields(i, e), FlowLength);
  }

  /** The commit carries no numbers, so it can never be mistaken for a step. */
  lemma CommitIsNoStep(i: nat, e: seq<int>)
    requires i < MaxFlowSteps && ValidStep(e)
    ensures DecodeFields(FlowControlPayload(Commit)) == None
    ensures StepPayload(i, e) != FlowControlPayload(Commit)
  {
    var cb, commit := FlowControlToken(Commit), FlowControlPayload(Commit);
    assert cb == "CB" && Unframe(commit) == cb;
    assert NoComma(cb);
    SplitWord(cb);
    assert ParseNumber(cb) == None by {
      assert !IsDigit(cb[0]);
    }
    StepPayloadSpec(i, e);
    var text := StepText(i, e);
    assert StepPayload(i, e)[0] == text[0] && IsDigit(text[0]);
    assert commit[0] == 'C';
  }

  /** The position of the first step that fails its checks, or the length when all pass. */
  function FirstInvalid(flows: seq<seq<int>>): (k: nat)
    ensures k <= |flows|
    ensures forall j :: 0 <= j < k ==> ValidStep(flows[j])
    ensures k < |flows| ==> !ValidStep(flows[k])
  {
    if flows == [] || !ValidStep(flows[0]) then 0 else 1 + FirstInvalid(flows[1..])
  }

  /** The writes for steps 0 .. k-1, in index order. */
  function StepWrites(flows: seq<seq<int>>, k: nat): (ws: seq<Write>)
    requires k <= |flows| <= MaxFlowSteps
    requires forall j :: 0 <= j < k ==> ValidStep(flows[j])
    ensures |ws| == k
  {
    if k == 0 then [] else StepWrites(flows, k - 1) + [Write(CharColorFlow, StepPayload(k - 1, flows[k - 1]))]
  }

  /** Write j of the first k is step j's payload, to the colour-flow characteristic. */
  lemma {:induction false} StepWritesAt(flows: seq<seq<int>>, k: nat)
    requires k <= |flows| <= MaxFlowSteps
    requires forall j :: 0 <= j < k ==> ValidStep(flows[j])
    ensures forall j :: 0 <= j < k ==> StepWrites(flows, k)[j] == Write(CharColorFlow, StepPayload(j, flows[j]))
  {
    if k > 0 {
      StepWritesAt(flows, k - 1);
    }
  }

  /** Each of the first k writes is 20 characters and reads back as its step's position and numbers. */
  lemma StepWritesPayloads(flows: seq<seq<int>>, k: nat)
    requires k <= |flows| <= MaxFlowSteps
    requires forall j :: 0 <= j < k ==> ValidStep(flows[j])
    ensures forall j :: 0 <= j < k ==> StepWrites(flows, k)[j] == Write(CharColorFlow, StepPayload(j, flows[j]))
    ensures forall j :: 0 <= j < k ==> |StepWrites(flows, k)[j].payload| == FlowLength
    ensures forall j :: 0 <= j < k ==> DecodeFields(StepWrites(flows, k)[j].payload) == Some(StepFields(j, flows[j]))
  {
    StepWritesAt(flows, k);
    forall j | 0 <= j < k
      ensures |StepPayload(j, flows[j])| == FlowLength
      ensures DecodeFields(StepPayload(j, flows[j])) == Some(StepFields(j, flows[j]))
    {
      StepPayloadSpec(j, flows[j]);
    }
  }

  /** One more checked step adds its write at the end. */
  lemma StepWritesSnoc(flows: seq<seq<int>>, k: nat)
    requires k < |flows| <= MaxFlowSteps
    requires forall j :: 0 <= j < k ==> ValidStep(flows[j])
    requires ValidStep(flows[k])
    ensures forall j :: 0 <= j < k + 1 ==> ValidStep(flows[j])
    ensures StepWrites(flows, k + 1) == StepWrites(flows, k) + [Write(CharColorFlow, StepPayload(k, flows[k]))]
  {
  }

  /**
   * The writes `start_color_flow(flows)` issues, in order: each step as it
   * passes its checks, then the commit once every step has passed. Nothing
   * when there are too many steps.
   */
  function FlowWrites(flows: seq<seq<int>>): seq<Write> {
    if |flows| > MaxFlowSteps then []
    else
      var k := FirstInvalid(flows);
      StepWrites(flows, k) + if k == |flows| then [Write(CharColorFlow, FlowControlPayload(Commit))] else []
  }

  /** How `start_color_flow(flows)` ends. */
  function FlowOutcome(flows: seq<seq<int>>): Outcome<Error> {
    if |flows| > MaxFlowSteps then Fail(TooManySteps)
    else if FirstInvalid(flows) < |flows| then Fail(BadStep(FirstInvalid(flows)))
    else Pass
  }

  /** When every step passes: the step writes, then the commit. */
  lemma FlowWritesComplete(flows: seq<seq<int>>)
    requires |flows| <= MaxFlowSteps
    requires forall j :: 0 <= j < |flows| ==> ValidStep(flows[j])
    ensures FlowOutcome(flows) == Pass
    ensures FlowWrites(flows) == StepWrites(flows, |flows|) + [Write(CharColorFlow, FlowControlPayload(Commit))]
  {
    assert FirstInvalid(flows) == |flows|;
  }

  /** When step k is the first to fail: the writes of the steps before it, and nothing more. */
  lemma FlowWritesStopped(flows: seq<seq<int>>, k: nat)
    requires |flows| <= MaxFlowSteps && k < |flows|
    requires forall j :: 0 <= j < k ==> ValidStep(flows[j])
    requires !ValidStep(flows[k])
    ensures FlowOutcome(flows) == Fail(BadStep(k))
    ensures FlowWrites(flows) == StepWrites(flows, k)
  {
    assert FirstInvalid(flows) == k;
  }

  /** A valid flow is written as one 20-character write per step, in index order, then the commit. */
  lemma ValidFlowWrites(flows: seq<seq<int>>)
    requires |flows| <= MaxFlowSteps
    requires forall j :: 0 <= j < |flows| ==> ValidStep(flows[j])
    ensures FlowOutcome(flows) == Pass
    ensures |FlowWrites(flows)| == |flows| + 1
    ensures forall j :: 0 <= j < |FlowWrites(flows)| ==>
      FlowWrites(flows)[j].target == CharColorFlow && |FlowWrites(flows)[j].payload| == FlowLength
    ensures forall j :: 0 <= j < |flows| ==> FlowWrites(flows)[j] == Write(CharColorFlow, StepPayload(j, flows[j]))
    ensures forall j :: 0 <= j < |flows| ==> DecodeFields(FlowWrites(flows)[j].payload) == Some(StepFields(j, flows[j]))
    ensures FlowWrites(flows)[|flows|] == Write(CharColorFlow, FlowControlPayload(Commit))
  {
    FlowWritesComplete(flows);
    var ws, steps := FlowWrites(flows), StepWrites(flows, |flows|);
    var commit := Write(CharColorFlow, FlowControlPayload(Commit));
    assert ws == steps + [commit];
    assert |steps| == |flows|;
    assert |ws| == |flows| + 1;
    assert ws[|flows|] == commit;
    StepWritesPayloads(flows, |flows|);
    forall j | 0 <= j < |flows|
      ensures ws[j] == steps[j]
    {
    }
    forall j | 0 <= j < |ws|
      ensures ws[j].target == CharColorFlow && |ws[j].payload| == FlowLength
    {
      if j < |flows| {
        assert ws[j] == steps[j];
      } else {
        assert ws[j] == commit;
      }
    }
  }

  /**
   * Validation is interleaved with the writes: when step k is the first to
   * fail, steps 0 .. k-1 have been written and no commit follows.
   */
  lemma FailedFlowWrites(flows: seq<seq<int>>, k: nat)
    requires |flows| <= MaxFlowSteps && k < |flows|
    requires forall j :: 0 <= j < k ==> ValidStep(flows[j])
    requires !ValidStep(flows[k])
    ensures FlowOutcome(flows) == Fail(BadStep(k))
    ensures var ws := FlowWrites(flows);
      && |ws| == k
      && (forall j :: 0 <= j < k ==> ws[j] == Write(CharColorFlow, StepPayload(j, flows[j])))
      && (forall j :: 0 <= j < k ==> ws[j].payload != FlowControlPayload(Commit))
  {
    FlowWritesStopped(flows, k);
    StepWritesAt(flows, k);
    var ws := FlowWrites(flows);
    forall j | 0 <= j < k ensures ws[j].payload != FlowControlPayload(Commit) {
      CommitIsNoStep(j, flows[j]);
    }
  }

  /** Too many steps: nothing is written. */
  lemma LongFlowWritesNothing(flows: seq<seq<int>>)
    requires |flows| > MaxFlowSteps
    ensures FlowWrites(flows) == [] && FlowOutcome(flows) == Fail(TooManySteps)
  {
  }

  // ---------------------------------------------------------------- worked frames

  /** The brightest white frames as "255,255,255,100" and three commas. */
  lemma BrightestWhiteFrame()
    ensures ControlRequest(255, 255, 255, 100) == Ok("255,255,255,100,,,")
  {
    ControlTextWidth(255, 255, 255, 100);
    RenderWidest();
    var text := ControlText(255, 255, 255, 100);
    assert text == "255,255,255,100";
    assert Commas(ControlLength - |text|) == ",,,";
    assert text + ",,," == "255,255,255,100,,,";
  }

  /** A five-minute switch-on frames as "5,1" and five commas. */
  lemma FiveMinuteDelayFrame()
    ensures DelayRequest(5, true) == Ok("5,1,,,,,")
  {
    DelayTextWidth(5, true);
    var delay := DelayText(5, true);
    assert Render(5) == "5";
    assert delay == "5,1";
    assert Commas(DelayLength - |delay|) == ",,,,,";
    assert delay + ",,,,," == "5,1,,,,,";
  }

  /** The limits are exclusive or inclusive as the checks say, and the filler fallback is exact. */
  lemma BoundaryFrames()
    ensures DelayRequest(1440, true) == Err(RangeError) && DelayRequest(0, false) == Err(RangeError)
    ensures ControlRequest(256, 0, 0, 0) == Err(RangeError) && ControlRequest(0, 0, 0, 101) == Err(RangeError)
    ensures FormatRequest("", 8) == ",,,,,,,," && FormatRequest("toolongvalue", 4) == ",,,,"
  {
  }
}
