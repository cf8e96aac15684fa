/** The double-buffered detector: what inserting an image does to the two inference requests and to the queue of
    image records, and what every run of insertions keeps. */
module DetectorModel {

  /** The pixels of an image, and the record that travels beside them. */
  type Pixels = int
  datatype Info = Info(pixels: Pixels, inputid: int, frameno: int, channelid: int)

  /** A request has never run, is running, or has finished. Its result is named by the pixels it was computed from. */
  datatype Phase = NotStarted | InFlight | Finished
  datatype Request = Request(input: seq<Pixels>, phase: Phase, result: seq<Pixels>)

  /** wrapNext says whose input the channels are wrapped around, and dirty is raised by a write into the input of
      a request that is running. */
  datatype Detector = Detector(curr: Request, next: Request, async: bool, batch: nat, filled: nat, queue: seq<Info>,
                               wrapNext: bool, loaded: bool, dirty: bool)

  /** What InsertImage reports: nothing done, image taken, or a batch of records with the pixels that their results
      were computed from; Failed is the exception for an empty queue. */
  datatype Outcome = Null | Inserted | Processed(infos: seq<Info>, from: seq<Pixels>) | Failed

  function Start(r: Request): Request {
    r.(phase := InFlight)
  }

  /** Waiting for the result. The plugin reads the input until it is done. */
  function Wait(r: Request): Request {
    if r.phase.InFlight? then r.(phase := Finished, result := r.input) else r
  }

  predicate Ready(r: Request) {
    !r.phase.NotStarted?
  }

  function Write(r: Request, slot: nat, p: Pixels): Request {
    if slot < |r.input| then r.(input := r.input[slot := p]) else r
  }

  /** The first half of InsertImage: wraps a blob at the start of a batch, queues the record, copies the pixels. */
  function Fill(d: Detector, info: Info): Detector {
    var toNext := if d.filled == 0 then d.async else d.wrapNext;
    var target := if toNext then d.next else d.curr;
    var d := d.(wrapNext := toNext, queue := d.queue + [info], dirty := d.dirty || target.phase.InFlight?);
    if toNext then d.(next := Write(d.next, d.filled, info.pixels))
      else d.(curr := Write(d.curr, d.filled, info.pixels))
  }

  /** The second half, once the batch is full: starts one request, collects the other, and swaps them. */
  function Flush(d: Detector): (Detector, Outcome) {
    var d := d.(filled := 0, wrapNext := false);
    var d := if d.async then d.(next := Start(d.next)) else d.(curr := Start(d.curr));
    var got := Ready(d.curr);
    var d := d.(curr := Wait(d.curr));
    if got && |d.queue| < d.batch then (d.(queue := []), Failed)
    else
      var out := if got then Processed(d.queue[..d.batch], d.curr.result) else Inserted;
      var d := if got then d.(queue := d.queue[d.batch..]) else d;
      (if d.async then d.(curr := d.next, next := d.curr) else d, out)
  }

  function Insert(d: Detector, info: Info, usable: bool): (Detector, Outcome) {
    if !usable || !d.loaded then (d, Null)
    else
      var d := Fill(d, info);
      var d := d.(filled := d.filled + 1);
      if d.filled >= d.batch then Flush(d) else (d, Inserted)
  }

  /** Waits for both requests, drops the queue and sets the mode. The argument, named for synchronous operation in
      the interface, is stored as the asynchronous flag. */
  function SetMode(d: Detector, flag: bool): Detector {
    d.(curr := Wait(d.curr), next := Wait(d.next), queue := [], filled := 0, wrapNext := false, async := flag)
  }

  /** A detector just loaded: asynchronous, nothing queued, nothing running. */
  predicate Loaded(d: Detector) {
    && d.loaded && d.async && d.batch >= 1 && d.filled == 0 && d.queue == [] && !d.dirty
    && d.curr.phase.NotStarted? && d.next.phase.NotStarted?
    && |d.curr.input| == d.batch && |d.next.input| == d.batch
  }

  function PixelsOf(infos: seq<Info>): (p: seq<Pixels>)
    ensures |p| == |infos| && forall i :: 0 <= i < |infos| ==> p[i] == infos[i].pixels
  {
    seq(|infos|, i requires 0 <= i < |infos| => infos[i].pixels)
  }

  // ---- the invariant ----

  /** The queue is the batch that is being computed, if any, followed by the images of the batch being filled; the
      running request holds the pixels of the one and the wrapped input those of the other. */
  ghost predicate Inv(d: Detector, outstanding: seq<Info>, partial: seq<Info>) {
    && d.loaded && d.batch >= 1 && !d.dirty
    && |d.curr.input| == d.batch && |d.next.input| == d.batch
    && d.queue == outstanding + partial && |partial| == d.filled < d.batch
    && (d.filled > 0 ==> d.wrapNext == d.async)
    && (if d.async then
          && !d.next.phase.InFlight? && d.next.input[..d.filled] == PixelsOf(partial)
          && (if d.curr.phase.InFlight? then |outstanding| == d.batch && d.curr.input == PixelsOf(outstanding)
              else d.curr.phase.NotStarted? && outstanding == [])
        else
          && outstanding == [] && !d.curr.phase.InFlight? && d.curr.input[..d.filled] == PixelsOf(partial))
  }

  /** A batch of records with the results of exactly their images. */
  ghost predicate Paired(d: Detector, o: Outcome) {
    o.Processed? ==> |o.infos| == d.batch && o.from == PixelsOf(o.infos)
  }

  lemma FillKept(d: Detector, outstanding: seq<Info>, partial: seq<Info>, info: Info)
    requires Inv(d, outstanding, partial)
    ensures var e := Fill(d, info);
            && e.queue == outstanding + (partial + [info]) && !e.dirty && e.wrapNext == d.async
            && e == d.(curr := e.curr, next := e.next, queue := e.queue, wrapNext := e.wrapNext)
            && e.curr.phase == d.curr.phase && e.next.phase == d.next.phase
            && |e.curr.input| == d.batch && |e.next.input| == d.batch
            && (if d.async then e.next.input[..d.filled + 1] == PixelsOf(partial + [info]) && e.curr == d.curr
                else e.curr.input[..d.filled + 1] == PixelsOf(partial + [info]))
  {
    assert PixelsOf(partial + [info]) == PixelsOf(partial) + [info.pixels];
  }

  /** One accepted image: the records that come out, if any, are the oldest batch with its own results, and what
      remains is again of the invariant's form. */
  lemma InsertKept(d: Detector, outstanding: seq<Info>, partial: seq<Info>, info: Info)
    returns (outstanding': seq<Info>, partial': seq<Info>)
    requires Inv(d, outstanding, partial)
    ensures var (e, o) := Insert(d, info, true);
            && Inv(e, outstanding', partial') && e.batch == d.batch && e.async == d.async
            && Paired(d, o) && !o.Failed? && !o.Null?
            && outstanding + partial + [info] == (if o.Processed? then o.infos else []) + outstanding' + partial'
            && (o.Processed? ==> d.filled + 1 == d.batch)
            && (d.filled + 1 == d.batch ==> (o.Processed? <==> !d.async || outstanding != []) && |partial'| == 0)
            && (d.async && (outstanding != [] || d.filled + 1 == d.batch) ==> outstanding' != [])
  {
    hide Fill, Flush, PixelsOf;
    var full := partial + [info];
    if d.filled + 1 < d.batch {
      outstanding', partial' := outstanding, full;
      GrowsKept(d, outstanding, partial, info);
    } else if d.async {
      outstanding', partial' := full, [];
      CompletesAsync(d, outstanding, partial, info);
    } else {
      outstanding', partial' := [], [];
      CompletesSync(d, outstanding, partial, info);
    }
    hide *;
    assert outstanding + partial + [info] == outstanding + full;
  }

  /** The batch is not complete yet. */
  lemma GrowsKept(d: Detector, outstanding: seq<Info>, partial: seq<Info>, info: Info)
    requires Inv(d, outstanding, partial) && d.filled + 1 < d.batch
    ensures var (e, o) := Insert(d, info, true);
            && Inv(e, outstanding, partial + [info]) && e.batch == d.batch && e.async == d.async && o == Inserted
  {
    hide Fill, PixelsOf;
    FillKept(d, outstanding, partial, info);
  }

  lemma CompletesAsync(d: Detector, outstanding: seq<Info>, partial: seq<Info>, info: Info)
    requires Inv(d, outstanding, partial) && d.filled + 1 == d.batch && d.async
    ensures var (e, o) := Insert(d, info, true);
            && Inv(e, partial + [info], []) && e.batch == d.batch && e.async
            && o == (if outstanding == [] then Inserted else Processed(outstanding, PixelsOf(outstanding)))
            && (outstanding != [] ==> |outstanding| == d.batch)
  {
    hide Fill, Flush, PixelsOf;
    FillKept(d, outstanding, partial, info);
    FlushAsync(Fill(d, info).(filled := d.filled + 1), outstanding, partial + [info]);
  }

  lemma CompletesSync(d: Detector, outstanding: seq<Info>, partial: seq<Info>, info: Info)
    requires Inv(d, outstanding, partial) && d.filled + 1 == d.batch && !d.async
    ensures outstanding == []
    ensures var (e, o) := Insert(d, info, true);
            && Inv(e, [], []) && e.batch == d.batch && !e.async
            && o == Processed(partial + [info], PixelsOf(partial + [info])) && |partial + [info]| == d.batch
  {
    hide Fill, Flush, PixelsOf;
    FillKept(d, outstanding, partial, info);
    assert [] + (partial + [info]) == partial + [info];
    FlushSync(Fill(d, info).(filled := d.filled + 1), partial + [info]);
  }

  /** A detector whose batch has just been completed. */
  ghost predicate Full(d: Detector, outstanding: seq<Info>, full: seq<Info>) {
    && d.loaded && d.batch >= 1 && !d.dirty && d.filled == d.batch == |full|
    && |d.curr.input| == d.batch && |d.next.input| == d.batch
    && d.queue == outstanding + full
  }

  lemma FlushAsync(d: Detector, outstanding: seq<Info>, full: seq<Info>)
    requires Full(d, outstanding, full) && d.async && !d.next.phase.InFlight?
             && d.next.input[..d.batch] == PixelsOf(full)
    requires if d.curr.phase.InFlight? then |outstanding| == d.batch && d.curr.input == PixelsOf(outstanding)
             else d.curr.phase.NotStarted? && outstanding == []
    ensures var (e, o) := Flush(d);
            && Inv(e, full, []) && e.batch == d.batch && e.async
            && o == if outstanding == [] then Inserted else Processed(outstanding, PixelsOf(outstanding))
  {
    assert d.next.input == d.next.input[..d.batch];
    assert (outstanding + full)[..|outstanding|] == outstanding;
    assert (outstanding + full)[|outstanding|..] == full;
    assert full + [] == full;
  }

  lemma FlushSync(d: Detector, full: seq<Info>)
    requires Full(d, [], full) && !d.async && !d.curr.phase.InFlight? && d.curr.input[..d.batch] == PixelsOf(full)
    ensures var (e, o) := Flush(d);
            && Inv(e, [], []) && e.batch == d.batch && !e.async
            && o == Processed(full, PixelsOf(full))
  {
    assert d.curr.input == d.curr.input[..d.batch];
    assert ([] + full)[..d.batch] == full;
  }

  // ---- all runs ----

  /** A run of insertions; rejected images may be among them. */
  datatype Input = Input(info: Info, usable: bool)

  function Drive(d: Detector, inputs: seq<Input>): (r: (Detector, seq<Outcome>))
  {
    if inputs == [] then (d, [])
    else
      var (e, os) := Drive(d, inputs[..|inputs| - 1]);
      var (f, o) := Insert(e, inputs[|inputs| - 1].info, inputs[|inputs| - 1].usable);
      (f, os + [o])
  }

  function Accepted(inputs: seq<Input>): seq<Info> {
    if inputs == [] then []
    else Accepted(inputs[..|inputs| - 1]) + if inputs[|inputs| - 1].usable then [inputs[|inputs| - 1].info] else []
  }

  /** The records that the outcomes deliver, in order. */
  function Delivered(os: seq<Outcome>): seq<Info> {
    if os == [] then []
    else Delivered(os[..|os| - 1]) + if os[|os| - 1].Processed? then os[|os| - 1].infos else []
  }

  /** Nothing queued and nothing outstanding, in this mode. */
  ghost predicate Clean(d: Detector, async: bool) {
    Inv(d, [], []) && d.async == async
  }

  /** A detector just loaded is clean in asynchronous mode. */
  lemma LoadedClean(d: Detector)
    requires Loaded(d)
    ensures Clean(d, true)
  {
  }

  /** What a run has delivered and what is left, before the readable form below. */
  ghost predicate RunInv(d: Detector, async: bool, inputs: seq<Input>, outstanding: seq<Info>, partial: seq<Info>) {
    var (e, os) := Drive(d, inputs);
    && Inv(e, outstanding, partial) && e.batch == d.batch && e.async == async
    && Accepted(inputs) == Delivered(os) + outstanding + partial
    && (forall k :: 0 <= k < |os| ==> Paired(d, os[k]) && !os[k].Failed?)
    && (async && outstanding == [] ==> Delivered(os) == [])
  }

  lemma RunStep(d: Detector, async: bool, inputs: seq<Input>, last: Input, out: seq<Info>, part: seq<Info>)
    returns (outstanding: seq<Info>, partial: seq<Info>)
    requires RunInv(d, async, inputs, out, part)
    ensures RunInv(d, async, inputs + [last], outstanding, partial)
  {
    hide Inv, Insert, Drive, Accepted, Delivered;
    var (e, os) := Drive(d, inputs);
    var (f, o) := Insert(e, last.info, last.usable);
    RunSnoc(d, inputs, last);
    if last.usable {
      outstanding, partial := InsertKept(e, out, part, last.info);
      Regroup(Delivered(os), out, part, last.info, if o.Processed? then o.infos else [], outstanding, partial);
    } else {
      outstanding, partial := out, part;
      Unusable(e, last.info);
    }
  }

  lemma RunSnoc(d: Detector, inputs: seq<Input>, last: Input)
    ensures var (e, os) := Drive(d, inputs);
            var (f, o) := Insert(e, last.info, last.usable);
            && Drive(d, inputs + [last]) == (f, os + [o])
            && Delivered(os + [o]) == Delivered(os) + (if o.Processed? then o.infos else [])
    ensures Accepted(inputs + [last]) == Accepted(inputs) + (if last.usable then [last.info] else [])
  {
    hide Insert;
    var all := inputs + [last];
    assert all[..|all| - 1] == inputs;
    var (e, os) := Drive(d, inputs);
    var (f, o) := Insert(e, last.info, last.usable);
    assert (os + [o])[..|os + [o]| - 1] == os;
  }

  lemma Unusable(d: Detector, info: Info)
    ensures Insert(d, info, false) == (d, Null)
  {
  }

  lemma {:induction false} RunAll(d: Detector, async: bool, inputs: seq<Input>)
    returns (outstanding: seq<Info>, partial: seq<Info>)
    requires Clean(d, async)
    ensures RunInv(d, async, inputs, outstanding, partial)
  {
    if inputs == [] {
      outstanding, partial := [], [];
      assert Drive(d, []) == (d, []);
    } else {
      hide RunInv, Inv;
      var m := |inputs| - 1;
      var out, part := RunAll(d, async, inputs[..m]);
      assert inputs == inputs[..m] + [inputs[m]];
      outstanding, partial := RunStep(d, async, inputs[..m], inputs[m], out, part);
    }
  }

  /** Over all runs in a fixed mode, from any clean state: every batch of results is paired with the records of the
      images that filled it, in order and without loss; what has not been delivered is one outstanding batch as soon
      as there has been one, none in synchronous mode, and the images of the batch being filled; no input is written
      while its request runs, and the exception never happens. */
  lemma RunPairs(d: Detector, async: bool, inputs: seq<Input>) returns (outstanding: seq<Info>, partial: seq<Info>)
    requires Clean(d, async)
    ensures var (e, os) := Drive(d, inputs);
            && Accepted(inputs) == Delivered(os) + outstanding + partial
            && (forall k :: 0 <= k < |os| ==> Paired(d, os[k]) && !os[k].Failed?)
            && e.queue == outstanding + partial && |partial| == e.filled < d.batch && !e.dirty
            && |outstanding| == (if async && |Accepted(inputs)| >= d.batch then d.batch else 0)
  {
    outstanding, partial := RunAll(d, async, inputs);
  }

  lemma Regroup<T>(done: seq<T>, out: seq<T>, part: seq<T>, x: T, now: seq<T>, out': seq<T>, part': seq<T>)
    requires out + part + [x] == now + out' + part'
    ensures done + out + part + [x] == done + now + out' + part'
  {
    assert done + out + part + [x] == done + (out + part + [x]);
    assert done + now + out' + part' == done + (now + out' + part');
  }

  // ---- switching modes ----

  /** Switching drops the queue. Synchronous operation is sound from then on whatever ran before; asynchronous
      operation is if and only if the current request has never run: otherwise its old result is still ready. */
  lemma SwitchSound(d: Detector, outstanding: seq<Info>, partial: seq<Info>, flag: bool)
    requires Inv(d, outstanding, partial)
    ensures Inv(SetMode(d, flag), [], []) <==> !flag || d.curr.phase.NotStarted?
  {
  }

  /** So from a sound switch on, whatever ran before, every run pairs its batches with their own images. */
  lemma SwitchedRun(d: Detector, out: seq<Info>, part: seq<Info>, flag: bool, inputs: seq<Input>)
    returns (outstanding: seq<Info>, partial: seq<Info>)
    requires Inv(d, out, part) && (!flag || d.curr.phase.NotStarted?)
    ensures var (e, os) := Drive(SetMode(d, flag), inputs);
            && Accepted(inputs) == Delivered(os) + outstanding + partial
            && (forall k :: 0 <= k < |os| ==> Paired(d, os[k]) && !os[k].Failed?)
            && e.queue == outstanding + partial && |partial| == e.filled < d.batch && !e.dirty
            && |outstanding| == (if flag && |Accepted(inputs)| >= d.batch then d.batch else 0)
  {
    SwitchSound(d, out, part, flag);
    outstanding, partial := RunPairs(SetMode(d, flag), flag, inputs);
  }

  /** In the unsound case: the batch filled after the switch comes back at once, with the results of an older one. */
  ghost predicate Stale(d: Detector, result: seq<Pixels>, queued: seq<Info>) {
    && d.loaded && d.async && d.curr.phase.Finished? && d.curr.result == result
    && d.queue == queued && |queued| == d.filled < d.batch
  }

  lemma {:induction false} StaleFilling(d: Detector, result: seq<Pixels>, inputs: seq<Input>)
    requires Stale(d, result, []) && |inputs| < d.batch && forall k :: 0 <= k < |inputs| ==> inputs[k].usable
    ensures var (e, os) := Drive(d, inputs);
            Stale(e, result, Accepted(inputs)) && e.batch == d.batch && |Accepted(inputs)| == |inputs|
  {
    if inputs != [] {
      StaleFilling(d, result, inputs[..|inputs| - 1]);
    }
  }

  lemma {:induction false} StaleBatch(d: Detector, outstanding: seq<Info>, partial: seq<Info>, inputs: seq<Input>)
    requires Inv(d, outstanding, partial) && !d.curr.phase.NotStarted?
    requires |inputs| == d.batch && forall k :: 0 <= k < |inputs| ==> inputs[k].usable
    ensures var (e, os) := Drive(SetMode(d, true), inputs);
            |os| == d.batch && os[d.batch - 1] == Processed(Accepted(inputs), Wait(d.curr).result)
  {
    hide Insert;
    var m, k := SetMode(d, true), |inputs| - 1;
    var result := Wait(d.curr).result;
    StaleFilling(m, result, inputs[..k]);
    DriveLength(m, inputs[..k]);
    StaleFull(Drive(m, inputs[..k]).0, result, Accepted(inputs[..k]), inputs[k].info);
  }

  /** Every batch that a run delivers is paired with its own images, and the exception never happens. */
  ghost predicate PairsAll(d: Detector, inputs: seq<Input>) {
    var os := Drive(d, inputs).1;
    forall k :: 0 <= k < |os| ==> Paired(d, os[k]) && !os[k].Failed?
  }

  /** A batch of images none of which looks like the first of an older result. */
  function OtherImages(result: seq<Pixels>, batch: nat): (inputs: seq<Input>)
    ensures |inputs| == batch
  {
    var p := if result == [] then 0 else result[0] + 1;
    seq(batch, _ => Input(Info(p, 0, 0, 0), true))
  }

  lemma {:induction false} AcceptedAll(inputs: seq<Input>)
    requires forall k :: 0 <= k < |inputs| ==> inputs[k].usable
    ensures |Accepted(inputs)| == |inputs|
    ensures forall k :: 0 <= k < |inputs| ==> Accepted(inputs)[k] == inputs[k].info
  {
    if inputs != [] {
      AcceptedAll(inputs[..|inputs| - 1]);
    }
  }

  lemma StaleUnpaired(d: Detector, outstanding: seq<Info>, partial: seq<Info>)
    requires Inv(d, outstanding, partial) && !d.curr.phase.NotStarted?
    ensures !PairsAll(SetMode(d, true), OtherImages(Wait(d.curr).result, d.batch))
  {
    var result := Wait(d.curr).result;
    var inputs := OtherImages(result, d.batch);
    StaleBatch(d, outstanding, partial, inputs);
    AcceptedAll(inputs);
    hide Drive, Inv, SetMode;
    var infos := Accepted(inputs);
    assert result == [] || PixelsOf(infos)[0] != result[0];
    assert !Paired(SetMode(d, true), Processed(infos, result));
  }

  /** After a switch every run pairs its batches with their own images if and only if the switch is to synchronous
      operation or the current request has never run. */
  lemma SwitchPairsIff(d: Detector, outstanding: seq<Info>, partial: seq<Info>, flag: bool)
    requires Inv(d, outstanding, partial)
    ensures (forall inputs :: PairsAll(SetMode(d, flag), inputs)) <==> !flag || d.curr.phase.NotStarted?
  {
    hide Inv, PairsAll, SetMode;
    if !flag || d.curr.phase.NotStarted? {
      forall inputs ensures PairsAll(SetMode(d, flag), inputs) {
        SwitchedPairs(d, outstanding, partial, flag, inputs);
      }
    } else {
      StaleUnpaired(d, outstanding, partial);
    }
  }

  lemma SwitchedPairs(d: Detector, outstanding: seq<Info>, partial: seq<Info>, flag: bool, inputs: seq<Input>)
    requires Inv(d, outstanding, partial) && (!flag || d.curr.phase.NotStarted?)
    ensures PairsAll(SetMode(d, flag), inputs)
  {
    hide Inv, Drive;
    var out, part := SwitchedRun(d, outstanding, partial, flag, inputs);
  }

  lemma StaleFull(d: Detector, result: seq<Pixels>, queued: seq<Info>, info: Info)
    requires Stale(d, result, queued) && d.filled + 1 == d.batch
    ensures Insert(d, info, true).1 == Processed(queued + [info], result)
  {
    var q := queued + [info];
    assert q[..d.batch] == q;
  }

  lemma {:induction false} DriveLength(d: Detector, inputs: seq<Input>)
    ensures |Drive(d, inputs).1| == |inputs|
  {
    if inputs != [] {
      DriveLength(d, inputs[..|inputs| - 1]);
    }
  }
}
