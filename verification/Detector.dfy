/** The detector as an object: two request objects whose roles are swapped, and the queue of image records. Its
    methods carry out the transitions of the model. */
module DetectorObject {
  import opened DetectorModel

  class InferRequest {
    var input: seq<Pixels>
    var phase: Phase
    var result: seq<Pixels>

    constructor (slots: nat)
      ensures Value() == Request(input, NotStarted, []) && |input| == slots
    {
      input := seq(slots, _ => 0);
      phase := NotStarted;
      result := [];
    }

    function Value(): Request
      reads this
    {
      Request(input, phase, result)
    }

    method StartAsync()
      modifies this
      ensures Value() == Start(old(Value()))
    {
      phase := InFlight;
    }

    /** True when the request has been started at some time, and then its result is there. */
    method WaitReady() returns (ready: bool)
      modifies this
      ensures ready == Ready(old(Value())) && Value() == Wait(old(Value()))
    {
      ready := phase != NotStarted;
      if phase == InFlight {
        result := input;
        phase := Finished;
      }
    }

    method Copy(slot: nat, p: Pixels)
      modifies this
      ensures Value() == Write(old(Value()), slot, p)
    {
      if slot < |input| {
        input := input[slot := p];
      }
    }
  }

  lemma FillKeepsRest(d: DetectorModel.Detector, info: Info)
    ensures Fill(d, info).batch == d.batch && Fill(d, info).filled == d.filled && Fill(d, info).loaded == d.loaded
  {
  }

  class Detector {
    var curr: InferRequest
    var next: InferRequest
    var async: bool
    var batch: nat
    var filled: nat
    var queue: seq<Info>
    var wrapped: InferRequest
    ghost var dirty: bool

    ghost predicate Valid()
      reads this
    {
      curr != next && (filled > 0 ==> wrapped == curr || wrapped == next)
    }

    /** The state of the object as the model sees it. */
    ghost function Value(): DetectorModel.Detector
      reads this, curr, next
    {
      DetectorModel.Detector(curr.Value(), next.Value(), async, batch, filled, queue,
        filled > 0 && wrapped == next, true, dirty)
    }

    /** Loading makes two requests that have not run and starts in asynchronous mode. */
    constructor (bn: nat)
      requires bn >= 1
      ensures Valid() && fresh(curr) && fresh(next) && Loaded(Value()) && batch == bn
    {
      var a := new InferRequest(bn);
      var b := new InferRequest(bn);
      curr, next, wrapped := a, b, a;
      async, batch, filled, queue, dirty := true, bn, 0, [], false;
    }

    /** Takes one image in: wraps an input at the start of a batch, queues the record and copies the pixels. */
    method FillOne(info: Info)
      requires Valid()
      modifies this, curr, next
      ensures Valid() && curr == old(curr) && next == old(next)
      ensures Value() == (var d := Fill(old(Value()), info); d.(filled := d.filled + 1))
    {
      if filled == 0 {
        wrapped := if async then next else curr;
      }
      queue := queue + [info];
      dirty := dirty || wrapped.phase == InFlight;
      wrapped.Copy(filled, info.pixels);
      filled := filled + 1;
    }

    method InsertImage(info: Info, usable: bool) returns (out: Outcome)
      requires Valid()
      modifies this, curr, next
      ensures Valid() && {curr, next} == {old(curr), old(next)}
      ensures (Value(), out) == Insert(old(Value()), info, usable)
    {
      hide Fill, Flush;
      if !usable {
        return Null;
      }
      FillOne(info);
      FillKeepsRest(old(Value()), info);
      out := Inserted;
      if filled >= batch {
        out := FlushBatch();
      }
    }

    method FlushBatch() returns (out: Outcome)
      requires Valid()
      modifies this, curr, next
      ensures Valid() && {curr, next} == {old(curr), old(next)}
      ensures (Value(), out) == Flush(old(Value()))
    {
      filled := 0;
      if async {
        next.StartAsync();
      } else {
        curr.StartAsync();
      }
      var got := curr.WaitReady();
      out := Inserted;
      if got {
        if |queue| < batch {
          queue := [];
          return Failed;
        }
        out := Processed(queue[..batch], curr.result);
        queue := queue[batch..];
      }
      if async {
        curr, next := next, curr;
      }
    }

    method SetMode(flag: bool)
      requires Valid()
      modifies this, curr, next
      ensures Valid() && Value() == DetectorModel.SetMode(old(Value()), flag)
    {
      var a := curr.WaitReady();
      var b := next.WaitReady();
      queue := [];
      filled := 0;
      async := flag;
    }
  }
}
