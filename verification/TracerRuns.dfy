/**
  A tracer with a recorder attached: the spans that finish in a run are handed to
  the recorder, closing the tracer prints them, and a reader of the output finds
  them.
 */
module TracerRuns {
  import opened Wrappers
  import opened Seqs
  import opened SpanData
  import MockSpans
  import SpanRuns
  import JsonRecorders

  datatype Action = Happen(event: SpanRuns.Event) | Close

  function EventsOf(actions: seq<Action>): seq<SpanRuns.Event> {
    if |actions| == 0 then []
    else if actions[0].Happen? then [actions[0].event] + EventsOf(actions[1..])
    else EventsOf(actions[1..])
  }

  predicate Possible(w: SpanRuns.World, actions: seq<Action>) {
    SpanRuns.PossibleRun(w, EventsOf(actions))
  }

  function Recording(spans: seq<SpanData>): seq<JsonRecorders.Call> {
    if |spans| == 0 then [] else [JsonRecorders.Record(spans[0])] + Recording(spans[1..])
  }

  /** What an event hands to the recorder. */
  function Handed(w: SpanRuns.World, event: SpanRuns.Event): seq<SpanData>
    requires SpanRuns.Possible(w, event)
  {
    if event.Call? then MockSpans.Records(w.entities[event.i].span, event.op) else []
  }

  lemma FirstEvent(w: SpanRuns.World, actions: seq<Action>)
    requires |actions| > 0 && Possible(w, actions)
    ensures var rest := actions[1..];
      if actions[0].Close? then EventsOf(actions) == EventsOf(rest) && Possible(w, rest)
      else
        SpanRuns.Possible(w, actions[0].event) && Possible(SpanRuns.Step(w, actions[0].event), rest) &&
        SpanRuns.Run(w, EventsOf(actions)) == SpanRuns.Run(SpanRuns.Step(w, actions[0].event), EventsOf(rest))
  {
    if actions[0].Happen? {
      assert EventsOf(actions)[1..] == EventsOf(actions[1..]);
    }
    hide SpanRuns.Step, SpanRuns.Possible;
  }

  /** The calls that a run makes on the recorder. */
  function CallsOf(w: SpanRuns.World, actions: seq<Action>): seq<JsonRecorders.Call>
    requires Possible(w, actions)
    decreases |actions|
  {
    if |actions| == 0 then []
    else
      FirstEvent(w, actions);
      match actions[0]
      case Close => [JsonRecorders.Close] + CallsOf(w, actions[1..])
      case Happen(event) => Recording(Handed(w, event)) + CallsOf(SpanRuns.Step(w, event), actions[1..])
  }

  function SpansIn(recorded: seq<(nat, SpanData)>): seq<SpanData> {
    if |recorded| == 0 then [] else [recorded[0].1] + SpansIn(recorded[1..])
  }

  lemma {:induction false} SpansInAppend(a: seq<(nat, SpanData)>, b: seq<(nat, SpanData)>)
    ensures SpansIn(a + b) == SpansIn(a) + SpansIn(b)
  {
    if |a| == 0 {
      assert a + b == b;
    } else {
      assert (a + b)[1..] == a[1..] + b;
      SpansInAppend(a[1..], b);
    }
  }

  lemma {:induction false} SpansInTagged(i: nat, spans: seq<SpanData>)
    ensures SpansIn(SpanRuns.Tagged(i, spans)) == spans
  {
    if |spans| > 0 {
      SpansInTagged(i, spans[1..]);
      assert SpanRuns.Tagged(i, spans)[1..] == SpanRuns.Tagged(i, spans[1..]);
    }
  }

  lemma {:induction false} RecordedAppend(a: seq<JsonRecorders.Call>, b: seq<JsonRecorders.Call>)
    ensures JsonRecorders.Recorded(a + b) == JsonRecorders.Recorded(a) + JsonRecorders.Recorded(b)
  {
    if |a| == 0 {
      assert a + b == b;
    } else {
      assert (a + b)[1..] == a[1..] + b;
      RecordedAppend(a[1..], b);
      var one := if a[0].Record? then [a[0].span] else [];
      Associate(one, JsonRecorders.Recorded(a[1..]), JsonRecorders.Recorded(b));
    }
  }

  lemma {:induction false} RecordedRecording(spans: seq<SpanData>)
    ensures JsonRecorders.Recorded(Recording(spans)) == spans
  {
    if |spans| > 0 {
      RecordedRecording(spans[1..]);
      assert Recording(spans)[1..] == Recording(spans[1..]);
    }
  }

  lemma StepHands(w: SpanRuns.World, event: SpanRuns.Event)
    requires SpanRuns.Possible(w, event)
    ensures SpansIn(SpanRuns.Step(w, event).recorded) == SpansIn(w.recorded) + Handed(w, event)
  {
    hide MockSpans.Started, SpanRuns.Received, SpanRuns.Carriable, MockSpans.After, MockSpans.Records;
    if event.Call? {
      var records := MockSpans.Records(w.entities[event.i].span, event.op);
      SpansInAppend(w.recorded, SpanRuns.Tagged(event.i, records));
      SpansInTagged(event.i, records);
    }
  }

  /** The recorder is handed exactly what is recorded, in that order. */
  lemma {:induction false} HandedIsRecorded(w: SpanRuns.World, actions: seq<Action>)
    requires Possible(w, actions)
    ensures SpansIn(SpanRuns.Run(w, EventsOf(actions)).recorded) ==
      SpansIn(w.recorded) + JsonRecorders.Recorded(CallsOf(w, actions))
    decreases |actions|
  {
    hide SpanRuns.Step, SpanRuns.Possible, SpansIn, Handed;
    if |actions| > 0 {
      FirstEvent(w, actions);
      if actions[0].Close? {
        HandedIsRecorded(w, actions[1..]);
        assert CallsOf(w, actions)[1..] == CallsOf(w, actions[1..]);
      } else {
        var event := actions[0].event;
        var next := SpanRuns.Step(w, event);
        HandedIsRecorded(next, actions[1..]);
        StepHands(w, event);
        RecordedAppend(Recording(Handed(w, event)), CallsOf(next, actions[1..]));
        RecordedRecording(Handed(w, event));
        Associate(SpansIn(w.recorded), Handed(w, event), JsonRecorders.Recorded(CallsOf(next, actions[1..])));
      }
    }
  }

  lemma {:induction false} LastCall(w: SpanRuns.World, actions: seq<Action>)
    requires Possible(w, actions) && |actions| > 0 && actions[|actions| - 1].Close?
    ensures var calls := CallsOf(w, actions); |calls| > 0 && calls[|calls| - 1].Close?
    decreases |actions|
  {
    FirstEvent(w, actions);
    if |actions| > 1 {
      LastCall(if actions[0].Close? then w else SpanRuns.Step(w, actions[0].event), actions[1..]);
    }
    hide SpanRuns.Step, SpanRuns.Possible;
  }

  lemma {:induction false} ClosedIsEmpty(r: JsonRecorders.RecorderState, calls: seq<JsonRecorders.Call>)
    requires r.Valid() && r.sink.Some? && |calls| > 0 && calls[|calls| - 1].Close?
    ensures JsonRecorders.Run(r, calls).pending == []
    decreases |calls|
  {
    if |calls| > 1 {
      ClosedIsEmpty(JsonRecorders.Next(r, calls[0]), calls[1..]);
    }
  }

  /**
    The whole way of a span, in any run on an output stream that is good and has
    room: every span is recorded once if it is finished and never otherwise; a
    reader of the output finds the recorded spans, once each and in the order of
    their finishing, followed by those not closed yet, if and only if no integer
    outside 0..9 is printed after a `\u` escape; and closing leaves none behind.
   */
  lemma FinishedSpansAreRead(k: JsonRecorders.Sink, actions: seq<Action>)
    requires Possible(SpanRuns.EMPTY_WORLD, actions)
    requires var calls := CallsOf(SpanRuns.EMPTY_WORLD, actions);
      k.out.Valid() && k.out.good &&
      k.out.Fits(JsonRecorders.Documents(JsonRecorders.Batches([], calls), k.hex)) &&
      JsonRecorders.EachWellFormed(JsonRecorders.Recorded(calls))
    ensures var w := SpanRuns.Run(SpanRuns.EMPTY_WORLD, EventsOf(actions));
      var calls := CallsOf(SpanRuns.EMPTY_WORLD, actions);
      var batches := JsonRecorders.Batches([], calls);
      var end := JsonRecorders.Run(JsonRecorders.RecorderState(Some(k), []), calls);
      (forall i :: 0 <= i < |w.entities| ==>
        |SpanRuns.RecordsFrom(w.recorded, i)| == if SpanRuns.Finished(w.entities[i]) then 1 else 0) &&
      JsonRecorders.Elements(JsonRecorders.Arrays(batches)) + JsonRecorders.SpansJson(end.pending)
        == JsonRecorders.SpansJson(SpansIn(w.recorded)) &&
      end.sink.Some? && k.out.text <= end.sink.value.out.text &&
      var read := JsonRecorders.ReadAll(end.sink.value.out.text[|k.out.text|..]);
      (read == Some(JsonRecorders.Arrays(batches)) <==> JsonRecorders.BatchesSafe(batches, k.hex)) &&
      (|actions| > 0 && actions[|actions| - 1].Close? ==> end.pending == [])
  {
    hide SpanRuns.Run, SpanRuns.RecordsFrom, JsonRecorders.Run, JsonRecorders.Batches, JsonRecorders.Documents,
      JsonRecorders.Elements, JsonRecorders.Arrays, JsonRecorders.ReadAll, JsonRecorders.BatchesSafe,
      JsonRecorders.SpansJson, JsonRecorders.EachWellFormed, JsonRecorders.Recorded, CallsOf, EventsOf, SpansIn;
    var w0 := SpanRuns.EMPTY_WORLD;
    var calls := CallsOf(w0, actions);
    NothingIn();
    HandedIsRecorded(w0, actions);
    SpanRuns.RunAccounts(w0, EventsOf(actions));
    assert [] + JsonRecorders.Recorded(calls) == JsonRecorders.Recorded(calls);
    JsonRecorders.ReaderFindsAll(k, [], calls);
    if |actions| > 0 && actions[|actions| - 1].Close? {
      LastCall(w0, actions);
      ClosedIsEmpty(JsonRecorders.RecorderState(Some(k), []), calls);
    }
  }

  lemma NothingIn()
    ensures SpansIn([]) == []
  {
  }
}
