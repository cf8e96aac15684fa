/** An output plane that is painted in blocks: which pixels have their value, row by row and block by block. */
module Canvas {
  import opened Nonlinear

  type Picture = (nat, nat) -> real

  /** The pixels painted when all bands of h rows below band r are done, in band r all columns left of ox, and in
      the w columns from ox on the first i rows of the band. */
  predicate Region(x: nat, y: nat, h: nat, r: nat, ox: nat, w: nat, i: nat) {
    y < h * r || (y < h * r + h && (x < ox || (x < ox + w && y < h * r + i)))
  }

  /** Every painted pixel of the plane at offset ob has the value that the picture gives it. */
  ghost predicate Shown(out: seq<real>, ob: nat, ow: nat, oh: nat, pic: Picture,
                          h: nat, r: nat, ox: nat, w: nat, i: nat) {
    && oh * ow >= 0 && ob + oh * ow <= |out|
    && forall x: nat, y: nat {:trigger pic(x, y)} :: x < ow && y < oh && Region(x, y, h, r, ox, w, i)
          ==> Cell(out, ob, ow, x, y) == pic(x, y)
  }

  function Cell(out: seq<real>, ob: nat, ow: nat, x: nat, y: nat): real {
    if 0 <= ob + y * ow + x < |out| then out[ob + y * ow + x] else 0.0
  }

  /** The whole plane. */
  ghost predicate Complete(out: seq<real>, ob: nat, ow: nat, oh: nat, pic: Picture) {
    && oh * ow >= 0 && ob + oh * ow <= |out|
    && forall x: nat, y: nat {:trigger pic(x, y)} :: x < ow && y < oh ==> Cell(out, ob, ow, x, y) == pic(x, y)
  }

  /** Nothing outside the plane changes. */
  ghost predicate Framed(now: seq<real>, was: seq<real>, ob: nat, ow: nat, oh: nat) {
    |now| == |was| && forall t :: 0 <= t < |was| && !(ob <= t < ob + oh * ow) ==> now[t] == was[t]
  }

  lemma Index(ow: nat, oh: nat, x: nat, y: nat)
    requires x < ow && y < oh
    ensures 0 <= y * ow && y * ow + x < oh * ow
    ensures (y * ow + x) / ow == y && (y * ow + x) % ow == x
  {
    MulMono(0, y, ow);
    MulMono(y + 1, oh, ow);
    MulDist(y, 1, ow);
    DivModUnique(y * ow + x, ow, y, x);
  }

  /** Different pixels have different places. */
  lemma Apart(ow: nat, x: nat, y: nat, x': nat, y': nat)
    requires x < ow && x' < ow && y * ow + x == y' * ow + x'
    ensures x == x' && y == y'
  {
    MulMono(0, y, ow);
    DivModUnique(y * ow + x, ow, y, x);
    DivModUnique(y' * ow + x', ow, y', x');
  }

  /** Painting w pixels of one row of the band. */
  lemma ShowRow(was: seq<real>, now: seq<real>, ob: nat, ow: nat, oh: nat, pic: Picture,
                 h: nat, r: nat, ox: nat, w: nat, i: nat, row: nat)
    requires Shown(was, ob, ow, oh, pic, h, r, ox, w, i)
    requires i < h && ox + w <= ow && row == h * r + i < oh && |now| == |was|
    requires forall t :: 0 <= t < |was| && !(ob + row * ow + ox <= t < ob + row * ow + ox + w) ==> now[t] == was[t]
    requires forall x: nat :: ox <= x < ox + w ==> Cell(now, ob, ow, x, row) == pic(x, row)
    ensures Shown(now, ob, ow, oh, pic, h, r, ox, w, i + 1)
  {
    forall x: nat, y: nat | x < ow && y < oh && Region(x, y, h, r, ox, w, i + 1)
      ensures Cell(now, ob, ow, x, y) == pic(x, y)
    {
      if y == row && ox <= x < ox + w {
        assert Cell(now, ob, ow, x, row) == pic(x, row);
      } else {
        Index(ow, oh, x, y);
        CellElsewhere(was, now, ob, ow, x, y, row, ox, w);
        assert Region(x, y, h, r, ox, w, i);
      }
    }
  }

  lemma CellElsewhere(was: seq<real>, now: seq<real>, ob: nat, ow: nat, x: nat, y: nat, row: nat, ox: nat, w: nat)
    requires |now| == |was| && x < ow && ox + w <= ow && (y != row || x < ox || ox + w <= x)
    requires forall t :: 0 <= t < |was| && !(ob + row * ow + ox <= t < ob + row * ow + ox + w) ==> now[t] == was[t]
    ensures Cell(now, ob, ow, x, y) == Cell(was, ob, ow, x, y)
  {
    var t := ob + y * ow + x;
    if ob + row * ow + ox <= t < ob + row * ow + ox + w {
      Apart(ow, x, y, t - ob - row * ow, row);
    }
  }

  /** The block is done: on to the next columns. */
  lemma ShownBlock(out: seq<real>, ob: nat, ow: nat, oh: nat, pic: Picture, h: nat, r: nat, ox: nat, w: nat, w': nat)
    requires Shown(out, ob, ow, oh, pic, h, r, ox, w, h)
    ensures Shown(out, ob, ow, oh, pic, h, r, ox + w, w', 0)
  {
    forall x: nat, y: nat | x < ow && y < oh && Region(x, y, h, r, ox + w, w', 0)
      ensures Cell(out, ob, ow, x, y) == pic(x, y)
    {
      assert Region(x, y, h, r, ox, w, h);
    }
  }

  /** The band is done: on to the next rows. */
  lemma ShownBand(out: seq<real>, ob: nat, ow: nat, oh: nat, pic: Picture, h: nat, r: nat, ox: nat, w: nat, w': nat)
    requires Shown(out, ob, ow, oh, pic, h, r, ox, w, 0) && ox >= ow
    ensures Shown(out, ob, ow, oh, pic, h, r + 1, 0, w', 0)
  {
    MulDist(r, 1, h);
    assert h * (r + 1) == h * r + h;
    forall x: nat, y: nat | x < ow && y < oh && Region(x, y, h, r + 1, 0, w', 0)
      ensures Cell(out, ob, ow, x, y) == pic(x, y)
    {
      assert Region(x, y, h, r, ox, w, 0);
    }
  }

  lemma ShownFinished(out: seq<real>, ob: nat, ow: nat, oh: nat, pic: Picture, h: nat, r: nat, w: nat)
    requires Shown(out, ob, ow, oh, pic, h, r, 0, w, 0) && h * r >= oh
    ensures Complete(out, ob, ow, oh, pic)
  {
    forall x: nat, y: nat | x < ow && y < oh
      ensures Cell(out, ob, ow, x, y) == pic(x, y)
    {
      assert Region(x, y, h, r, 0, w, 0);
    }
  }

  lemma StoreRoom(out: seq<real>, ob: nat, ow: nat, oh: nat, pic: Picture, h: nat, r: nat, ox: nat, w: nat, i: nat,
          row: nat)
    requires Shown(out, ob, ow, oh, pic, h, r, ox, w, i) && ox + w <= ow && row < oh
    ensures 0 <= row * ow && row * ow + ox + w <= oh * ow && 0 <= oh * ow && ob + oh * ow <= |out|
  {
    MulMono(0, row, ow);
    MulMono(row + 1, oh, ow);
    MulDist(row, 1, ow);
  }

  lemma StoredLanes(out: seq<real>, lanes: seq<real>, ob: nat, ow: nat, pic: Picture, ox: nat, row: nat)
    requires row * ow >= 0 && ob + row * ow + ox + |lanes| <= |out|
    requires forall t :: ob + row * ow + ox <= t < ob + row * ow + ox + |lanes|
               ==> out[t] == lanes[t - (ob + row * ow + ox)]
    requires forall x: nat :: ox <= x < ox + |lanes| ==> lanes[x - ox] == pic(x, row)
    ensures forall x: nat :: ox <= x < ox + |lanes| ==> Cell(out, ob, ow, x, row) == pic(x, row)
  {
    forall x: nat | ox <= x < ox + |lanes|
      ensures Cell(out, ob, ow, x, row) == pic(x, row)
    {
      assert out[ob + row * ow + x] == lanes[x - ox];
    }
  }

  lemma FramedSame(out: seq<real>, ob: nat, ow: nat, oh: nat)
    ensures Framed(out, out, ob, ow, oh)
  {
  }

  lemma FramedTrans(a: seq<real>, b: seq<real>, c: seq<real>, ob: nat, ow: nat, oh: nat)
    requires Framed(b, a, ob, ow, oh) && Framed(c, b, ob, ow, oh)
    ensures Framed(c, a, ob, ow, oh)
  {
  }

  // ---- how often a pixel is written ----

  function Times(times: seq<nat>, ob: nat, ow: nat, x: nat, y: nat): nat {
    if 0 <= ob + y * ow + x < |times| then times[ob + y * ow + x] else 0
  }

  /** The pixels of the region have been written once, all others of the plane not yet. */
  ghost predicate Counted(times: seq<nat>, ob: nat, ow: nat, oh: nat, h: nat, r: nat, ox: nat, w: nat, i: nat) {
    && oh * ow >= 0 && ob + oh * ow <= |times|
    && forall x: nat, y: nat {:trigger Times(times, ob, ow, x, y)} :: x < ow && y < oh ==>
         Times(times, ob, ow, x, y) == if Region(x, y, h, r, ox, w, i) then 1 else 0
  }

  /** Every pixel of the plane has been written exactly once. */
  ghost predicate Once(times: seq<nat>, ob: nat, ow: nat, oh: nat) {
    && oh * ow >= 0 && ob + oh * ow <= |times|
    && forall x: nat, y: nat {:trigger Times(times, ob, ow, x, y)} :: x < ow && y < oh
          ==> Times(times, ob, ow, x, y) == 1
  }

  /** Writing a run that has not been written yet. */
  lemma CountRow(was: seq<nat>, now: seq<nat>, ob: nat, ow: nat, oh: nat,
                 h: nat, r: nat, ox: nat, w: nat, i: nat, row: nat)
    requires Counted(was, ob, ow, oh, h, r, ox, w, i)
    requires i < h && ox + w <= ow && row == h * r + i < oh && |now| == |was|
    requires forall t :: 0 <= t < |was| ==>
               now[t] == was[t] + if ob + row * ow + ox <= t < ob + row * ow + ox + w then 1 else 0
    ensures Counted(now, ob, ow, oh, h, r, ox, w, i + 1)
  {
    forall x: nat, y: nat | x < ow && y < oh
      ensures Times(now, ob, ow, x, y) == if Region(x, y, h, r, ox, w, i + 1) then 1 else 0
    {
      Index(ow, oh, x, y);
      InRun(ob, ow, x, y, row, ox, w);
      assert Times(was, ob, ow, x, y) == if Region(x, y, h, r, ox, w, i) then 1 else 0;
      assert Region(x, y, h, r, ox, w, i + 1) <==> Region(x, y, h, r, ox, w, i) || (y == row && ox <= x < ox + w);
    }
  }

  lemma InRun(ob: nat, ow: nat, x: nat, y: nat, row: nat, ox: nat, w: nat)
    requires x < ow && ox + w <= ow
    ensures ob + row * ow + ox <= ob + y * ow + x < ob + row * ow + ox + w <==> y == row && ox <= x < ox + w
  {
    if ob + row * ow + ox <= ob + y * ow + x < ob + row * ow + ox + w {
      Apart(ow, x, y, y * ow + x - row * ow, row);
    }
  }

  lemma CountedBlock(times: seq<nat>, ob: nat, ow: nat, oh: nat, h: nat, r: nat, ox: nat, w: nat, w': nat)
    requires Counted(times, ob, ow, oh, h, r, ox, w, h)
    ensures Counted(times, ob, ow, oh, h, r, ox + w, w', 0)
  {
    forall x: nat, y: nat
      ensures Region(x, y, h, r, ox + w, w', 0) <==> Region(x, y, h, r, ox, w, h)
    {
    }
  }

  lemma CountedBand(times: seq<nat>, ob: nat, ow: nat, oh: nat, h: nat, r: nat, ox: nat, w: nat, w': nat)
    requires Counted(times, ob, ow, oh, h, r, ox, w, 0) && ox >= ow
    ensures Counted(times, ob, ow, oh, h, r + 1, 0, w', 0)
  {
    MulDist(r, 1, h);
    assert h * (r + 1) == h * r + h;
    forall x: nat, y: nat | x < ow && y < oh
      ensures Region(x, y, h, r + 1, 0, w', 0) <==> Region(x, y, h, r, ox, w, 0)
    {
    }
  }

  // ---- both together ----

  /** The region of the plane holds the picture, and each of its pixels has been written once. */
  ghost predicate Painted(out: seq<real>, times: seq<nat>, ob: nat, ow: nat, oh: nat, pic: Picture,
                          h: nat, r: nat, ox: nat, w: nat, i: nat) {
    Shown(out, ob, ow, oh, pic, h, r, ox, w, i) && Counted(times, ob, ow, oh, h, r, ox, w, i) && |times| == |out|
  }

  /** The block is done: on to the next columns. */
  lemma NextBlock(out: seq<real>, times: seq<nat>, ob: nat, ow: nat, oh: nat, pic: Picture,
                  h: nat, r: nat, ox: nat, w: nat, w': nat)
    requires Painted(out, times, ob, ow, oh, pic, h, r, ox, w, h)
    ensures Painted(out, times, ob, ow, oh, pic, h, r, ox + w, w', 0)
  {
    hide Shown, Counted;
    ShownBlock(out, ob, ow, oh, pic, h, r, ox, w, w');
    CountedBlock(times, ob, ow, oh, h, r, ox, w, w');
  }

  /** The band is done: on to the next rows. */
  lemma NextBand(out: seq<real>, times: seq<nat>, ob: nat, ow: nat, oh: nat, pic: Picture,
                 h: nat, r: nat, ox: nat, w: nat, w': nat)
    requires Painted(out, times, ob, ow, oh, pic, h, r, ox, w, 0) && ox >= ow
    ensures Painted(out, times, ob, ow, oh, pic, h, r + 1, 0, w', 0)
  {
    hide Shown, Counted;
    ShownBand(out, ob, ow, oh, pic, h, r, ox, w, w');
    CountedBand(times, ob, ow, oh, h, r, ox, w, w');
  }

  /** Nothing has been written. */
  function Unwritten(n: nat): (times: seq<nat>)
    ensures |times| == n
  {
    seq(n, t => 0)
  }

  lemma Blank(out: seq<real>, ob: nat, ow: nat, oh: nat, pic: Picture, h: nat, w: nat)
    requires oh * ow >= 0 && ob + oh * ow <= |out|
    ensures Painted(out, Unwritten(|out|), ob, ow, oh, pic, h, 0, 0, w, 0)
  {
    assert h * 0 == 0;
  }

  lemma Finished(out: seq<real>, times: seq<nat>, ob: nat, ow: nat, oh: nat, pic: Picture, h: nat, r: nat, w: nat)
    requires Painted(out, times, ob, ow, oh, pic, h, r, 0, w, 0) && h * r >= oh
    ensures Complete(out, ob, ow, oh, pic) && Once(times, ob, ow, oh)
  {
    ShownFinished(out, ob, ow, oh, pic, h, r, w);
    hide Shown, Complete;
    forall x: nat, y: nat | x < ow && y < oh
      ensures Times(times, ob, ow, x, y) == 1
    {
      assert Region(x, y, h, r, 0, w, 0);
    }
  }

  /** Stores a run of pixels into one row of the current block, none of which has been written before. */
  method Store(out: array<real>, lanes: seq<real>, ghost times: seq<nat>, ob: nat, ow: nat, oh: nat, ghost pic: Picture,
               ghost h: nat, ghost r: nat, ox: nat, ghost i: nat, row: nat)
    returns (ghost times': seq<nat>)
    requires Painted(out[..], times, ob, ow, oh, pic, h, r, ox, |lanes|, i)
    requires i < h && ox + |lanes| <= ow && h * r >= 0 && row == h * r + i < oh
    requires forall x: nat :: ox <= x < ox + |lanes| ==> lanes[x - ox] == pic(x, row)
    modifies out
    ensures Painted(out[..], times', ob, ow, oh, pic, h, r, ox, |lanes|, i + 1)
    ensures Framed(out[..], old(out[..]), ob, ow, oh)
  {
    hide Shown, Counted;
    ghost var was := out[..];
    StoreRoom(was, ob, ow, oh, pic, h, r, ox, |lanes|, i, row);
    var at := ob + row * ow + ox;
    times' := times;
    for k := 0 to |lanes|
      invariant forall t :: 0 <= t < out.Length && !(at <= t < at + k) ==> out[t] == was[t]
      invariant forall t :: at <= t < at + k ==> out[t] == lanes[t - at]
      invariant |times'| == out.Length
      invariant forall t :: 0 <= t < out.Length ==> times'[t] == times[t] + if at <= t < at + k then 1 else 0
    {
      out[at + k] := lanes[k];
      times' := times'[at + k := times'[at + k] + 1];
    }
    StoredLanes(out[..], lanes, ob, ow, pic, ox, row);
    ShowRow(was, out[..], ob, ow, oh, pic, h, r, ox, |lanes|, i, row);
    CountRow(times, times', ob, ow, oh, h, r, ox, |lanes|, i, row);
  }
}
