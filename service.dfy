/**
 * The light client: every command encodes its payload and writes it to its
 * characteristic; status queries bracket the write with a registered
 * callback and return what it received.
 */
module Service {
  import opened Wrappers
  import opened Protocol
  import opened Notify

  /** A notification as the transport reports it: the characteristic handle and the raw bytes. */
  datatype Notification = Notification(handle: nat, data: seq<bv8>)

  /** The writes that reach the device: those to characteristics it exposes, in issue order. */
  function Delivered(present: set<Characteristic>, ws: seq<Write>): seq<Write>
  {
    if ws == [] then []
    else
      var last := ws[|ws| - 1];
      Delivered(present, ws[..|ws| - 1]) + if last.target in present then [last] else []
  }

  /** Only writes to exposed characteristics get through (that they keep their issue order is `DeliveredAppend`). */
  lemma {:induction false} DeliveredOnlyPresent(present: set<Characteristic>, ws: seq<Write>)
    ensures |Delivered(present, ws)| <= |ws|
    ensures forall w :: w in Delivered(present, ws) ==> w in ws && w.target in present
    decreases |ws|
  {
    if ws != [] {
      var init := ws[..|ws| - 1];
      DeliveredOnlyPresent(present, init);
      assert ws == init + [ws[|ws| - 1]];
    }
  }

  /** Every write gets through when the device exposes every target. */
  lemma {:induction false} DeliveredAllPresent(present: set<Characteristic>, ws: seq<Write>)
    requires forall j :: 0 <= j < |ws| ==> ws[j].target in present
    ensures Delivered(present, ws) == ws
    decreases |ws|
  {
    if ws != [] {
      var init := ws[..|ws| - 1];
      DeliveredAllPresent(present, init);
      assert ws == init + [ws[|ws| - 1]];
    }
  }

  /** Nothing gets through when the device exposes none of the targets. */
  lemma {:induction false} DeliveredNonePresent(present: set<Characteristic>, ws: seq<Write>)
    requires forall j :: 0 <= j < |ws| ==> ws[j].target !in present
    ensures Delivered(present, ws) == []
    decreases |ws|
  {
    if ws != [] {
      DeliveredNonePresent(present, ws[..|ws| - 1]);
    }
  }

  /**
   * Regrouping a concatenation. Stated apart so that the loop proof of
   * `StartColorFlow` is spared proving it in its own much larger context.
   */
  lemma AppendAssociative(a: seq<Write>, b: seq<Write>, c: seq<Write>)
    ensures (a + b) + c == a + (b + c)
  {
  }

  /** Filtering distributes over issuing one batch after another. */
  lemma {:induction false} DeliveredAppend(present: set<Characteristic>, a: seq<Write>, b: seq<Write>)
    ensures Delivered(present, a + b) == Delivered(present, a) + Delivered(present, b)
    decreases |b|
  {
    if b == [] {
      assert a + b == a;
    } else {
      var b' := b[..|b| - 1];
      assert (a + b)[..|a + b| - 1] == a + b';
      DeliveredAppend(present, a, b');
    }
  }

  /** The record a query's callback collected: the last one delivered to it (each call overwrites the last), if any. */
  function Collected(invoked: seq<Delivery>, c: CallbackId): (r: Option<Record>)
    ensures r.Some? <==> exists j :: 0 <= j < |invoked| && invoked[j].callback == c
    ensures r.Some? ==> exists j ::
      && 0 <= j < |invoked| && invoked[j] == Delivery(c, r.value)
      && forall k :: j < k < |invoked| ==> invoked[k].callback != c
  {
    if invoked == [] then None
    else if invoked[|invoked| - 1].callback == c then Some(invoked[|invoked| - 1].record)
    else Collected(invoked[..|invoked| - 1], c)
  }

  /** Every delivery of one notification carries the same record, so that is what a query collects. */
  lemma CollectedRecord(invoked: seq<Delivery>, c: CallbackId, rec: Record)
    requires forall j :: 0 <= j < |invoked| ==> invoked[j].record == rec
    requires exists j :: 0 <= j < |invoked| && invoked[j].callback == c
    ensures Collected(invoked, c) == Some(rec)
  {
  }

  class YeelightService {
    /** The characteristics the connected device exposes (those `getCharacteristics` finds). */
    const present: set<Characteristic>
    /** The delegate the peripheral passes notifications to. */
    const delegate: NotifyDelegate
    /** Every write that reached the device, oldest first. */
    var log: seq<Write>
    /** The identity the next query's callback gets: each call creates a new closure. */
    var nextCallback: CallbackId

    /** Every registered callback was created by an earlier query. */
    ghost predicate Valid()
      reads this, delegate
    {
      forall i :: 0 <= i < |delegate.queue| ==> delegate.queue[i] < nextCallback
    }

    /** A client of a device exposing `present`, with nothing written and no callback registered. */
    constructor (present: set<Characteristic>)
      ensures Valid() && fresh(delegate)
      ensures this.present == present && log == [] && delegate.queue == []
    {
      this.present := present;
      delegate := new NotifyDelegate();
      log := [];
      nextCallback := 0;
    }

    /** `__write_character__`: the write reaches the device, or is skipped when the characteristic is absent. */
    method WriteCharacter(target: Characteristic, payload: string)
      modifies this`log
      ensures log == old(log) + Delivered(present, [Write(target, payload)])
    {
      if target in present {
        log := log + [Write(target, payload)];
      }
    }

    /** `control(r, g, b, a)`: one framed write to the control characteristic, or a range error and no write. */
    method Control(r: int, g: int, b: int, a: int) returns (res: Outcome<Error>)
      modifies this`log
      ensures match ControlRequest(r, g, b, a)
        case Ok(p) => res == Pass && log == old(log) + Delivered(present, [Write(CharControl, p)])
        case Err(e) => res == Fail(e) && log == old(log)
    {
      var request := ControlRequest(r, g, b, a);
      if request.Err? {
        return Fail(request.error);
      }
      WriteCharacter(CharControl, request.value);
      res := Pass;
    }

    /** `turn_on(brightness)`: white at the given brightness, exactly `control(255, 255, 255, brightness)`. */
    method TurnOn(brightness: int := 100) returns (res: Outcome<Error>)
      modifies this`log
      ensures match ControlRequest(255, 255, 255, brightness)
        case Ok(p) => res == Pass && log == old(log) + Delivered(present, [Write(CharControl, p)])
        case Err(e) => res == Fail(e) && log == old(log)
    {
      res := Control(255, 255, 255, brightness);
    }

    /** `turn_off()`: exactly `control(0, 0, 0, 0)`, which always passes its checks. */
    method TurnOff() returns (res: Outcome<Error>)
      modifies this`log
      ensures res == Pass
      ensures log == old(log) + Delivered(present, [Write(CharControl, ControlRequest(0, 0, 0, 0).value)])
    {
      res := Control(0, 0, 0, 0);
    }

    /** `delay_on(mins)`: a framed "mins,1" to the delay characteristic, or a range error and no write. */
    method DelayOn(mins: int := 5) returns (res: Outcome<Error>)
      modifies this`log
      ensures match DelayRequest(mins, true)
        case Ok(p) => res == Pass && log == old(log) + Delivered(present, [Write(CharDelay, p)])
        case Err(e) => res == Fail(e) && log == old(log)
    {
      var request := DelayRequest(mins, true);
      if request.Err? {
        return Fail(request.error);
      }
      WriteCharacter(CharDelay, request.value);
      res := Pass;
    }

    /** `delay_off(mins)`: a framed "mins,0" to the delay characteristic, or a range error and no write. */
    method DelayOff(mins: int := 5) returns (res: Outcome<Error>)
      modifies this`log
      ensures match DelayRequest(mins, false)
        case Ok(p) => res == Pass && log == old(log) + Delivered(present, [Write(CharDelay, p)])
        case Err(e) => res == Fail(e) && log == old(log)
    {
      var request := DelayRequest(mins, false);
      if request.Err? {
        return Fail(request.error);
      }
      WriteCharacter(CharDelay, request.value);
      res := Pass;
    }

    /**
     * `__notify_character__`: registers a fresh callback, writes the query,
     * waits for one notification (`event`, None when the wait timed out) and
     * deregisters the callback on either path. The answer is the record the
     * callback received.
     */
    method NotifyCharacter(target: Characteristic, payload: string, event: Option<Notification>)
      returns (res: Option<Record>)
      requires Valid()
      modifies this, delegate
      ensures Valid()
      ensures delegate.queue == old(delegate.queue)
      ensures log == old(log) + Delivered(present, [Write(target, payload)])
      ensures nextCallback == old(nextCallback) + 1
      ensures res == match event
        case Some(n) => Some(Record(n.data, n.handle))
        case None => None
    {
      ghost var before := delegate.queue;
      var callback := nextCallback;
      nextCallback := nextCallback + 1;
      delegate.Register(callback);
      WriteCharacter(target, payload);
      res := None;
      if event.Some? {
        var invoked := delegate.HandleNotification(event.value.handle, event.value.data);
        assert invoked[|before|].callback == callback;
        CollectedRecord(invoked, callback, Record(event.value.data, event.value.handle));
        res := Collected(invoked, callback);
      }
      RemoveJustRegistered(before, callback);
      var removed := delegate.Deregister(callback);
      assert removed == Pass;
    }

    /** `delay_status()`: the query "RT" on the delay-query characteristic. */
    method DelayStatus(event: Option<Notification>) returns (res: Option<Record>)
      requires Valid()
      modifies this, delegate
      ensures Valid()
      ensures delegate.queue == old(delegate.queue)
      ensures log == old(log) + Delivered(present, [Write(CharDelayQuery, DelayQueryPayload())])
      ensures nextCallback == old(nextCallback) + 1
      ensures res.Some? <==> event.Some?
      ensures event.Some? ==> res.value == Record(event.value.data, event.value.handle)
    {
      res := NotifyCharacter(CharDelayQuery, DelayQueryPayload(), event);
    }

    /** `control_status()`: the query "S" on the query characteristic. */
    method ControlStatus(event: Option<Notification>) returns (res: Option<Record>)
      requires Valid()
      modifies this, delegate
      ensures Valid()
      ensures delegate.queue == old(delegate.queue)
      ensures log == old(log) + Delivered(present, [Write(CharQuery, StatusQueryPayload())])
      ensures nextCallback == old(nextCallback) + 1
      ensures res.Some? <==> event.Some?
      ensures event.Some? ==> res.value == Record(event.value.data, event.value.handle)
    {
      res := NotifyCharacter(CharQuery, StatusQueryPayload(), event);
    }

    /**
     * `start_color_flow(flows)`: checks the step count, then checks and writes
     * each step in index order, then writes the commit. A failed check stops
     * the call where it is.
     */
    method StartColorFlow(flows: seq<seq<int>>) returns (res: Outcome<Error>)
      modifies this`log
      ensures log == old(log) + Delivered(present, FlowWrites(flows))
      ensures res == FlowOutcome(flows)
    {
      if |flows| > MaxFlowSteps {
        return Fail(TooManySteps);
      }
      for i := 0 to |flows|
        invariant forall j :: 0 <= j < i ==> ValidStep(flows[j])
        invariant log == old(log) + Delivered(present, StepWrites(flows, i))
      {
        if !ValidStep(flows[i]) {
          FlowWritesStopped(flows, i);
          return Fail(BadStep(i));
        }
        var step := Write(CharColorFlow, StepPayload(i, flows[i]));
        ghost var done := StepWrites(flows, i);
        StepWritesSnoc(flows, i);
        DeliveredAppend(present, done, [step]);
        AppendAssociative(old(log), Delivered(present, done), Delivered(present, [step]));
        WriteCharacter(CharColorFlow, step.payload);
      }
      var commit := Write(CharColorFlow, FlowControlPayload(Commit));
      FlowWritesComplete(flows);
      DeliveredAppend(present, StepWrites(flows, |flows|), [commit]);
      AppendAssociative(old(log), Delivered(present, StepWrites(flows, |flows|)), Delivered(present, [commit]));
      WriteCharacter(CharColorFlow, commit.payload);
      res := Pass;
    }

    /** `stop_color_flow()`: "CE" padded to 20 on the colour-flow characteristic. */
    method StopColorFlow()
      modifies this`log
      ensures log == old(log) + Delivered(present, [Write(CharColorFlow, FlowControlPayload(Stop))])
    {
      WriteCharacter(CharColorFlow, FlowControlPayload(Stop));
    }

    /** `effect_smooth()`: "TS" on the colour-effect characteristic. */
    method EffectSmooth()
      modifies this`log
      ensures log == old(log) + Delivered(present, [Write(CharColorEffect, EffectPayload(Smooth))])
    {
      WriteCharacter(CharColorEffect, EffectPayload(Smooth));
    }

    /** `effect_immediate()`: "TE" on the colour-effect characteristic. */
    method EffectImmediate()
      modifies this`log
      ensures log == old(log) + Delivered(present, [Write(CharColorEffect, EffectPayload(Immediate))])
    {
      WriteCharacter(CharColorEffect, EffectPayload(Immediate));
    }

    /** `effect_current_color()`: "DF" on the colour-effect characteristic. */
    method EffectCurrentColor()
      modifies this`log
      ensures log == old(log) + Delivered(present, [Write(CharColorEffect, EffectPayload(CurrentColor))])
    {
      WriteCharacter(CharColorEffect, EffectPayload(CurrentColor));
    }
  }
}
