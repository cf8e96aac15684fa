/** The output loop of the detection-output layer: one row of seven numbers per detection, image by image and
    class by class, and a marker after the last row when there is room. */
module DetectionWriter {
  import opened ClassLists
  import opened Nonlinear
  import T = Tensor

  datatype Status = Ok | NotImplemented | OutOfBounds

  /** The shapes and the inputs of the layer. Group g of the flat buffers is class g % classes of image g / classes. */
  datatype Layer = Layer(images: nat, classes: nat, priors: nat, share: bool, conf: seq<real>, boxes: seq<real>)

  const ROW := 7

  /** How many boxes an image has: one set for all classes, or one per class. */
  function BoxSets(l: Layer): nat {
    if l.share then 1 else l.classes
  }

  /** The inputs hold a confidence for every prior box of every group and a box for every prior box of every set. */
  ghost predicate Inputs(l: Layer) {
    && l.classes > 0
    && |l.conf| >= l.images * l.classes * l.priors
    && |l.boxes| >= l.images * (l.priors * 4 * BoxSets(l))
  }

  /** Where the boxes for class c of image n start. */
  function BoxBase(l: Layer, n: nat, c: nat): (b: nat)
    requires Inputs(l) && n < l.images && c < l.classes
    ensures b + l.priors * 4 <= |l.boxes|
  {
    var which: nat := if l.share then 0 else c;
    var size := l.priors * 4;
    MulMono(0, n, size * BoxSets(l));
    MulMono(n + 1, l.images, size * BoxSets(l));
    MulDist(n, 1, size * BoxSets(l));
    MulMono(which + 1, BoxSets(l), size);
    MulDist(which, 1, size);
    assert BoxSets(l) * size == size * BoxSets(l);
    MulMono(0, which, size);
    n * (size * BoxSets(l)) + which * size
  }

  /** The row of one detection. */
  function Row(l: Layer, g: nat, idx: nat): (r: seq<real>)
    requires Inputs(l) && g < l.images * l.classes && idx < l.priors
    ensures |r| == ROW
  {
    var n: nat, c: nat := g / l.classes, g % l.classes;
    Within(l, g);
    Stretch(l.images * l.classes, l.priors, g);
    var b := BoxBase(l, n, c) + 4 * idx;
    [n as real, c as real, l.conf[g * l.priors + idx], l.boxes[b], l.boxes[b + 1], l.boxes[b + 2], l.boxes[b + 3]]
  }

  /** The confidences are images x classes x priors, the boxes images x sets x priors x corners. */
  function ConfidenceAt(l: Layer, n: nat, c: nat, idx: nat): nat {
    T.Flat(T.Grid(l.images, l.classes, l.priors, 1), T.Place(n, c, idx, 0))
  }

  function CornerAt(l: Layer, n: nat, c: nat, idx: nat, i: nat): nat {
    T.Flat(T.Grid(l.images, if l.share then 1 else l.classes, l.priors, 4),
           T.Place(n, if l.share then 0 else c, idx, i))
  }

  /** Which number stands where in a row: image, class, confidence, then the corners of the box. */
  lemma RowFields(l: Layer, n: nat, c: nat, idx: nat)
    requires Inputs(l) && n < l.images && c < l.classes && idx < l.priors
    ensures 0 <= n * l.classes + c < l.images * l.classes && ConfidenceAt(l, n, c, idx) < |l.conf|
    ensures forall i :: 0 <= i < 4 ==> CornerAt(l, n, c, idx, i) < |l.boxes|
    ensures var r := Row(l, n * l.classes + c, idx);
            && r[0] == n as real && r[1] == c as real && r[2] == l.conf[ConfidenceAt(l, n, c, idx)]
            && forall i :: 0 <= i < 4 ==> r[3 + i] == l.boxes[CornerAt(l, n, c, idx, i)]
  {
    GroupOf(l, n, c);
    Stretch(l.images * l.classes, l.priors, n * l.classes + c);
    forall i | 0 <= i < 4
      ensures CornerAt(l, n, c, idx, i) == BoxBase(l, n, c) + 4 * idx + i
    {
      CornerIs(l, n, c, idx, i);
    }
    assert ConfidenceAt(l, n, c, idx) == (n * l.classes + c) * l.priors + idx;
    hide BoxBase, CornerAt, ConfidenceAt;
  }

  lemma CornerIs(l: Layer, n: nat, c: nat, idx: nat, i: nat)
    requires Inputs(l) && n < l.images && c < l.classes && idx < l.priors
    ensures CornerAt(l, n, c, idx, i) == BoxBase(l, n, c) + 4 * idx + i
  {
    var sets, which := BoxSets(l), if l.share then 0 else c;
    MulDist(n * sets, which, l.priors);
    MulAssoc(n, sets, l.priors);
    assert ((n * sets + which) * l.priors + idx) * 4 == (n * sets + which) * l.priors * 4 + 4 * idx;
    CornerSum(n, sets, which, l.priors);
  }

  lemma CornerSum(n: nat, sets: nat, which: nat, p: nat)
    ensures (n * sets + which) * p * 4 == n * (p * 4 * sets) + which * (p * 4)
  {
    MulDist(n * sets, which, p);
    assert n * sets * p * 4 == n * (p * 4 * sets);
    assert which * p * 4 == which * (p * 4);
  }

  lemma Within(l: Layer, g: nat)
    requires l.classes > 0 && g < l.images * l.classes
    ensures 0 <= g / l.classes < l.images && 0 <= g % l.classes < l.classes
    ensures g == g / l.classes * l.classes + g % l.classes
  {
    assert l.images * l.classes == l.classes * l.images;
    DivBound(g, l.classes, l.images);
  }

  ghost predicate Shape(l: Layer, indices: seq<nat>, counts: seq<nat>) {
    && Inputs(l)
    && ClassLists.Shape(indices, counts, l.images * l.classes, l.priors)
    && Named(indices, counts, l.images * l.classes, l.priors)
  }

  /** The rows of the first i detections of group g. */
  ghost function GroupRows(l: Layer, indices: seq<nat>, counts: seq<nat>, g: nat, i: nat): (r: seq<real>)
    requires Shape(l, indices, counts) && g < l.images * l.classes && i <= counts[g]
    ensures |r| == ROW * i
  {
    if i == 0 then []
    else GroupRows(l, indices, counts, g, i - 1)
         + Row(l, g, List(indices, counts, l.images * l.classes, l.priors, g)[i - 1])
  }

  /** The rows of the first g groups. */
  ghost function Rows(l: Layer, indices: seq<nat>, counts: seq<nat>, g: nat): (r: seq<real>)
    requires Shape(l, indices, counts) && g <= l.images * l.classes
    ensures |r| == ROW * CountSum(counts, 0, g)
  {
    if g == 0 then [] else Rows(l, indices, counts, g - 1) + GroupRows(l, indices, counts, g - 1, counts[g - 1])
  }

  /** Images that keep at most k detections each keep at most k per image together. */
  lemma {:induction false} ImagesBound(counts: seq<nat>, images: nat, classes: nat, k: nat)
    requires images * classes <= |counts|
    requires forall n: nat :: n < images ==> ImageTotal(counts, n, classes) <= k
    ensures 0 <= images * classes && CountSum(counts, 0, images * classes) <= images * k
  {
    if images > 0 {
      var n := images - 1;
      MulDist(n, 1, classes);
      MulDist(n, 1, k);
      MulMono(0, n, classes);
      ImagesBound(counts, n, classes, k);
      TotalSplit(counts, n * classes, classes);
      assert ImageTotal(counts, n, classes) == CountSum(counts, n * classes, classes);
      assert n * classes + classes == images * classes && n * k + k == images * k;
    } else {
      assert images * classes == 0;
    }
  }

  /** The detections that image n keeps. */
  ghost function ImageTotal(counts: seq<nat>, n: nat, classes: nat): nat {
    MulMono(0, n, classes);
    if n * classes + classes <= |counts| then CountSum(counts, n * classes, classes) else 0
  }

  lemma GroupOf(l: Layer, n: nat, c: nat)
    requires n < l.images && c < l.classes
    ensures 0 <= n * l.classes && n * l.classes + c < l.images * l.classes
    ensures (n * l.classes + c) / l.classes == n && (n * l.classes + c) % l.classes == c
  {
    MulMono(0, n, l.classes);
    MulMono(n + 1, l.images, l.classes);
    MulDist(n, 1, l.classes);
    DivModUnique(n * l.classes + c, l.classes, n, c);
  }

  /** The check that comes before anything is written. A negative bound makes the unsigned size enormous. */
  function Precheck(images: nat, keepTopK: int, detectionSize: int, room: nat): Status {
    if detectionSize != ROW then NotImplemented
    else if images * keepTopK * detectionSize < 0 || images * keepTopK * detectionSize > room then OutOfBounds
    else Ok
  }

  /** The rows of all detections, at most images * keepTopK of them; then a marker if there is room, then zeros. */
  /** The layer writes exactly for rows of seven numbers, a bound that is not negative (or no image), and room for all
      rows within the bound. */
  lemma WritesIff(images: nat, keepTopK: int, detectionSize: int, room: nat)
    ensures Precheck(images, keepTopK, detectionSize, room) == Ok
            <==> detectionSize == 7 && (keepTopK >= 0 || images == 0) && images * keepTopK * 7 <= room
    ensures Precheck(images, keepTopK, detectionSize, room) == NotImplemented <==> detectionSize != 7
  {
    if keepTopK >= 0 {
      MulMono(0, images, keepTopK);
    } else if images > 0 {
      MulMono(1, images, -keepTopK);
      assert images * -keepTopK == -(images * keepTopK);
    }
  }

  ghost predicate RowsWritten(l: Layer, indices: seq<nat>, counts: seq<nat>, keepTopK: int, dst: seq<real>, count: nat)
    requires Shape(l, indices, counts)
  {
    && count == CountSum(counts, 0, l.images * l.classes)
    && 0 <= ROW * count <= ROW * (l.images * keepTopK) <= |dst|
    && dst[..ROW * count] == Rows(l, indices, counts, l.images * l.classes)
    && (count < l.images * keepTopK ==> dst[ROW * count] == -1.0)
    && (forall t :: ROW * count < t < ROW * (l.images * keepTopK) ==> dst[t] == 0.0)
  }

  /** The output loops. dst is the output buffer, counted in numbers. */
  method Write(l: Layer, indices: array<nat>, counts: array<nat>, keepTopK: int, detectionSize: int, dst: array<real>)
    returns (status: Status, count: nat)
    requires Shape(l, indices[..], counts[..])
    requires keepTopK >= 0 ==> CountSum(counts[..], 0, l.images * l.classes) <= l.images * keepTopK
    modifies dst
    ensures status == Precheck(l.images, keepTopK, detectionSize, dst.Length)
    ensures status != Ok ==> count == 0 && dst[..] == old(dst[..])
    ensures status == Ok ==> RowsWritten(l, indices[..], counts[..], keepTopK, dst[..], count)
  {
    count := 0;
    if detectionSize != ROW {
      status := NotImplemented;
      return;
    }
    var size := l.images * keepTopK * detectionSize;
    if size < 0 || size > dst.Length {
      status := OutOfBounds;
      return;
    }
    status := Ok;
    NonNegativeBound(l, indices[..], counts[..], keepTopK);
    count := WriteRows(l, indices, counts, size, dst);
    assert dst[..ROW * count] == Rows(l, indices[..], counts[..], l.images * l.classes);
    if count < l.images * keepTopK {
      dst[ROW * count] := -1.0;
    }
  }

  lemma NonNegativeBound(l: Layer, indices: seq<nat>, counts: seq<nat>, keepTopK: int)
    requires Shape(l, indices, counts) && l.images * keepTopK * ROW >= 0
    requires keepTopK >= 0 ==> CountSum(counts, 0, l.images * l.classes) <= l.images * keepTopK
    ensures CountSum(counts, 0, l.images * l.classes) <= l.images * keepTopK
  {
    if keepTopK < 0 {
      NegativeProduct(l.images, keepTopK);
    }
  }

  lemma NegativeProduct(a: nat, b: int)
    requires b < 0 && a * b >= 0
    ensures a == 0
  {
    if a > 0 {
      MulMono(1, a, -b);
    }
  }

  /** The state of the buffer after the rows of g groups and i more. */
  ghost predicate Written(l: Layer, indices: seq<nat>, counts: seq<nat>, d: seq<real>, g: nat, i: nat, count: nat,
          size: nat)
    requires Shape(l, indices, counts)
  {
    && g <= l.images * l.classes && (if g == l.images * l.classes then i == 0 else i <= counts[g])
    && count == CountSum(counts, 0, g) + i && ROW * count <= size <= |d|
    && d[..ROW * count] == Rows(l, indices, counts, g) + (if i == 0 then [] else GroupRows(l, indices, counts, g, i))
    && forall t :: ROW * count <= t < size ==> d[t] == 0.0
  }

  lemma Started(l: Layer, indices: seq<nat>, counts: seq<nat>, d: seq<real>, size: nat)
    requires Shape(l, indices, counts) && size <= |d| && forall t :: 0 <= t < size ==> d[t] == 0.0
    ensures 0 <= l.images * l.classes && Written(l, indices, counts, d, 0, 0, 0, size)
  {
    MulMono(0, l.images, l.classes);
    assert d[..0] == [];
  }

  lemma RoomForRow(l: Layer, indices: seq<nat>, counts: seq<nat>, g: nat, i: nat, count: nat, size: nat)
    requires Shape(l, indices, counts) && g < l.images * l.classes && i < counts[g]
             && count == CountSum(counts, 0, g) + i
    requires ROW * CountSum(counts, 0, l.images * l.classes) <= size
    ensures ROW * count + ROW <= size
  {
    TotalMono(counts, g + 1, l.images * l.classes);
  }

  lemma RowWritten(l: Layer, indices: seq<nat>, counts: seq<nat>, d: seq<real>, now: seq<real>, g: nat, i: nat,
          count: nat, size: nat)
    requires Shape(l, indices, counts) && Written(l, indices, counts, d, g, i, count, size)
    requires g < l.images * l.classes && i < counts[g] && ROW * count + ROW <= size && |now| == |d|
    requires now[..ROW * count] == d[..ROW * count]
    requires now[ROW * count..ROW * count + ROW]
             == Row(l, g, List(indices, counts, l.images * l.classes, l.priors, g)[i])
    requires now[ROW * count + ROW..] == d[ROW * count + ROW..]
    ensures Written(l, indices, counts, now, g, i + 1, count + 1, size)
  {
    hide Row, Rows, CountSum, List;
    var r := Row(l, g, List(indices, counts, l.images * l.classes, l.priors, g)[i]);
    FirstRow(l, indices, counts, g, i);
    assert now[..ROW * (count + 1)] == now[..ROW * count] + r;
    forall t | ROW * (count + 1) <= t < size
      ensures now[t] == 0.0
    {
      assert now[t] == now[ROW * count + ROW..][t - ROW * count - ROW];
    }
  }

  lemma FirstRow(l: Layer, indices: seq<nat>, counts: seq<nat>, g: nat, i: nat)
    requires Shape(l, indices, counts) && g < l.images * l.classes && i < counts[g]
    ensures GroupRows(l, indices, counts, g, i + 1)
         == (if i == 0 then [] else GroupRows(l, indices, counts, g, i))
            + Row(l, g, List(indices, counts, l.images * l.classes, l.priors, g)[i])
  {
  }

  lemma GroupDone(l: Layer, indices: seq<nat>, counts: seq<nat>, d: seq<real>, g: nat, count: nat, size: nat)
    requires Shape(l, indices, counts) && g < l.images * l.classes
    requires Written(l, indices, counts, d, g, counts[g], count, size)
    ensures Written(l, indices, counts, d, g + 1, 0, count, size)
  {
  }

  method StoreRow(dst: array<real>, at: nat, row: seq<real>)
    requires |row| == ROW && at + ROW <= dst.Length
    modifies dst
    ensures dst[..at] == old(dst[..at])
    ensures dst[at..at + ROW] == row
    ensures dst[at + ROW..] == old(dst[at + ROW..])
  {
    dst[at], dst[at + 1], dst[at + 2], dst[at + 3] := row[0], row[1], row[2], row[3];
    dst[at + 4], dst[at + 5], dst[at + 6] := row[4], row[5], row[6];
  }

  method WriteRows(l: Layer, indices: array<nat>, counts: array<nat>, size: nat, dst: array<real>) returns (count: nat)
    requires Shape(l, indices[..], counts[..])
    requires ROW * CountSum(counts[..], 0, l.images * l.classes) <= size <= dst.Length
    modifies dst
    ensures Written(l, indices[..], counts[..], dst[..], l.images * l.classes, 0, count, size)
  {
    hide Row, Rows, GroupRows, CountSum, List, BoxBase, Written;
    ghost var ix, cs := indices[..], counts[..];
    for t := 0 to size
      invariant forall u :: 0 <= u < t ==> dst[u] == 0.0
    {
      dst[t] := 0.0;
    }
    Started(l, ix, cs, dst[..], size);
    count := 0;
    for n := 0 to l.images
      invariant 0 <= n * l.classes && Written(l, ix, cs, dst[..], n * l.classes, 0, count, size)
    {
      for c := 0 to l.classes
        invariant 0 <= n * l.classes + c && Written(l, ix, cs, dst[..], n * l.classes + c, 0, count, size)
      {
        GroupOf(l, n, c);
        count := WriteGroup(l, indices, counts, n * l.classes + c, count, size, dst);
      }
      MulDist(n, 1, l.classes);
    }
  }

  method WriteGroup(l: Layer, indices: array<nat>, counts: array<nat>, g: nat, count0: nat, size: nat, dst: array<real>)
    returns (count: nat)
    requires Shape(l, indices[..], counts[..])
    requires ROW * CountSum(counts[..], 0, l.images * l.classes) <= size <= dst.Length
    requires g < l.images * l.classes && Written(l, indices[..], counts[..], dst[..], g, 0, count0, size)
    modifies dst
    ensures Written(l, indices[..], counts[..], dst[..], g + 1, 0, count, size)
  {
    hide Row, Rows, GroupRows, CountSum, List, BoxBase, Written;
    ghost var ix, cs := indices[..], counts[..];
    count := count0;
    for i := 0 to counts[g]
      invariant Written(l, ix, cs, dst[..], g, i, count, size)
    {
      ListAt(ix, cs, l.images * l.classes, l.priors, g, i);
      WrittenCount(l, ix, cs, dst[..], g, i, count, size);
      RoomForRow(l, ix, cs, g, i, count, size);
      ghost var was := dst[..];
      StoreRow(dst, ROW * count, Row(l, g, indices[g * l.priors + i]));
      RowWritten(l, ix, cs, was, dst[..], g, i, count, size);
      count := count + 1;
    }
    GroupDone(l, ix, cs, dst[..], g, count, size);
  }

  lemma WrittenCount(l: Layer, indices: seq<nat>, counts: seq<nat>, d: seq<real>, g: nat, i: nat, count: nat, size: nat)
    requires Shape(l, indices, counts) && Written(l, indices, counts, d, g, i, count, size)
    ensures count == CountSum(counts, 0, g) + i
  {
  }
}
