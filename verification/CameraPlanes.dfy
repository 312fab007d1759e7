/**
 Turning camera planes into packed I420 frames: stride removal and rotation, and
 the algebra the rotations obey.
 */
module CameraPlanes {
  import opened Machine
  import opened Grids

  /** One plane as the camera describes it. */
  datatype Plane = Plane(data: Bytes, rowStride: nat, pixelStride: nat)

  // ----- Packing

  /** The pixel at (row, column), or zero past the end of the buffer. */
  function PixelAt(p: Plane, row: nat, col: nat): Byte {
    var index := row * p.rowStride + col * p.pixelStride;
    if index < |p.data| then p.data[index] else 0
  }

  ghost predicate RowPacked(out: Bytes, p: Plane, width: nat, row: nat) {
    forall c: nat | c < width :: At(row, c, width) < |out| && out[At(row, c, width)] == PixelAt(p, row, c)
  }

  ghost predicate RowsPacked(out: Bytes, p: Plane, width: nat, rows: nat) {
    |out| == rows * width && forall r: nat | r < rows :: RowPacked(out, p, width, r)
  }

  function Zeros(n: nat): Bytes {
    seq(n, _ => 0)
  }

  lemma RowsGrow(out: Bytes, p: Plane, width: nat, rows: nat, line: Bytes)
    requires RowsPacked(out, p, width, rows) && |line| == width
    requires forall c: nat | c < width :: line[c] == PixelAt(p, rows, c)
    ensures RowsPacked(out + line, p, width, rows + 1)
  {
    hide PixelAt;
    assert (rows + 1) * width == rows * width + width;
    forall r: nat | r < rows + 1 ensures RowPacked(out + line, p, width, r) {
      forall c: nat | c < width
        ensures At(r, c, width) < |out + line| && (out + line)[At(r, c, width)] == PixelAt(p, r, c)
      {
        if r < rows {
          MulStep(r, rows, width);
          assert RowPacked(out, p, width, r);
        }
      }
    }
  }

  lemma NoRows(p: Plane, width: nat)
    ensures RowsPacked([], p, width, 0)
  {
  }

  lemma RowsLength(out: Bytes, p: Plane, width: nat, rows: nat)
    requires RowsPacked(out, p, width, rows)
    ensures |out| == rows * width && (rows + 1) * width == |out| + width
  {
  }

  /** Past the end of a planar buffer there is only padding. */
  lemma BeyondData(p: Plane, row: nat, later: nat, col: nat)
    requires p.pixelStride == 1 && row * p.rowStride >= |p.data| && later >= row
    ensures PixelAt(p, later, col) == 0
  {
    MulLe(row, later, p.rowStride);
  }

  lemma {:induction false} PadRows(out: Bytes, p: Plane, width: nat, row: nat, height: nat)
    requires RowsPacked(out, p, width, row) && row <= height
    requires row < height ==> p.pixelStride == 1 && row * p.rowStride >= |p.data|
    ensures row * width <= height * width
    ensures RowsPacked(out + Zeros(height * width - row * width), p, width, height)
    decreases height - row
  {
    MulLe(row, height, width);
    if row == height {
      assert out + Zeros(0) == out;
    } else {
      hide RowsPacked;
      var line := Zeros(width);
      forall c: nat | c < width ensures line[c] == PixelAt(p, row, c) { BeyondData(p, row, row, c); }
      RowsGrow(out, p, width, row, line);
      if row + 1 < height { MulLe(row, row + 1, p.rowStride); }
      PadRows(out + line, p, width, row + 1, height);
      assert (row + 1) * width == row * width + width;
      var n := height * width;
      assert out + line + Zeros(n - (row + 1) * width) == out + Zeros(n - row * width);
    }
  }

  /** A planar row is contiguous; a short final row is padded. */
  method AppendPlanarRow(out0: Bytes, p: Plane, width: nat, row: nat) returns (out: Bytes)
    requires RowsPacked(out0, p, width, row) && p.pixelStride == 1 && row * p.rowStride < |p.data|
    ensures RowsPacked(out, p, width, row + 1)
  {
    hide RowsPacked;
    RowsLength(out0, p, width, row);
    var start := row * p.rowStride;
    var end := if start + width < |p.data| then start + width else |p.data|;
    out := out0 + p.data[start..end];
    out := out + Zeros((row + 1) * width - |out|);
    ghost var line := p.data[start..end] + Zeros(width - (end - start));
    assert out == out0 + line;
    RowsGrow(out0, p, width, row, line);
  }

  /** A row whose pixels lie `pixelStride` bytes apart, past the end read as zero. */
  method AppendInterleavedRow(out0: Bytes, p: Plane, width: nat, row: nat) returns (out: Bytes)
    requires RowsPacked(out0, p, width, row)
    ensures RowsPacked(out, p, width, row + 1)
  {
    hide RowsPacked;
    out := out0;
    ghost var line: Bytes := [];
    for column := 0 to width
      invariant out == out0 + line && |line| == column
      invariant forall c: nat | c < column :: line[c] == PixelAt(p, row, c)
    {
      var pixel := PixelAt(p, row, column);
      line := line + [pixel];
      out := out + [pixel];
    }
    RowsGrow(out0, p, width, row, line);
  }

  /** A plane without its padding: width * height bytes in row order. */
  method PackPlane(p: Plane, width: nat, height: nat) returns (out: Bytes)
    ensures RowsPacked(out, p, width, height)
  {
    hide PixelAt, RowsPacked;
    out := [];
    NoRows(p, width);
    var row := 0;
    while row < height
      invariant row <= height && RowsPacked(out, p, width, row)
    {
      if p.pixelStride == 1 {
        if row * p.rowStride >= |p.data| {
          break;
        }
        out := AppendPlanarRow(out, p, width, row);
      } else {
        out := AppendInterleavedRow(out, p, width, row);
      }
      row := row + 1;
    }
    PadRows(out, p, width, row, height);
    RowsLength(out, p, width, row);
    out := out + Zeros(height * width - |out|);
  }

  // ----- Rotation

  datatype Rotation = Cw90 | Cw180 | Cw270

  /** Where the pixel at (row, column) of a width-by-height plane goes. */
  function Target(row: nat, col: nat, width: nat, height: nat, rotation: Rotation): nat
    requires row < height && col < width
  {
    match rotation
    case Cw90 => At(col, height - 1 - row, height)
    case Cw180 => At(height - 1 - row, width - 1 - col, width)
    case Cw270 => At(width - 1 - col, row, height)
  }

  /** Dimensions after the turn. */
  function Turned(width: nat, height: nat, rotation: Rotation): (nat, nat) {
    if rotation == Cw180 then (width, height) else (height, width)
  }

  /** The pixel an output position comes from, in input coordinates (row, column). */
  function Origin(row: nat, col: nat, width: nat, height: nat, rotation: Rotation): (nat, nat)
    requires row < Turned(width, height, rotation).1 && col < Turned(width, height, rotation).0
  {
    match rotation
    case Cw90 => (height - 1 - col, row)
    case Cw180 => (height - 1 - row, width - 1 - col)
    case Cw270 => (col, width - 1 - row)
  }

  /** What a plane shorter than its dimensions reads as. */
  function Read(src: Bytes, i: nat): Byte {
    if i < |src| then src[i] else 0
  }

  /** Pixel (row, col) of the input is pixel `Target` of the output. */
  ghost predicate RotatedAt(out: Bytes, src: Bytes, width: nat, height: nat, rotation: Rotation, row: nat, col: nat) {
    row < height && col < width ==>
      Target(row, col, width, height, rotation) < |out| &&
      out[Target(row, col, width, height, rotation)] == Read(src, At(row, col, width))
  }

  ghost predicate Rotated(out: Bytes, src: Bytes, width: nat, height: nat, rotation: Rotation) {
    |out| == width * height &&
    forall r: nat, c: nat | r < height && c < width :: RotatedAt(out, src, width, height, rotation, r, c)
  }

  lemma AtInRect(row: nat, col: nat, width: nat, height: nat)
    requires row < height && col < width
    ensures At(row, col, width) < width * height
  {
    MulStep(row, height, width);
    assert width * height == height * width;
  }

  /** Every pixel has its own slot, and every slot belongs to a pixel. */
  lemma TargetInverse(row: nat, col: nat, width: nat, height: nat, rotation: Rotation)
    requires row < height && col < width
    ensures Target(row, col, width, height, rotation) < width * height
    ensures var (w, h) := Turned(width, height, rotation);
            var t := Target(row, col, width, height, rotation);
            && w > 0 && Row(t, w) < h && Col(t, w) < w
            && Origin(Row(t, w), Col(t, w), width, height, rotation) == (row, col)
  {
    match rotation
    case Cw90 => AtInRect(col, height - 1 - row, height, width); RowColOfAt(col, height - 1 - row, height);
    case Cw180 =>
      AtInRect(height - 1 - row, width - 1 - col, width, height);
      RowColOfAt(height - 1 - row, width - 1 - col, width);
    case Cw270 => AtInRect(width - 1 - col, row, height, width); RowColOfAt(width - 1 - col, row, height);
  }

  lemma TargetInjective(r: nat, c: nat, r': nat, c': nat, width: nat, height: nat, rotation: Rotation)
    requires r < height && c < width && r' < height && c' < width
    requires Target(r, c, width, height, rotation) == Target(r', c', width, height, rotation)
    ensures r == r' && c == c'
  {
    TargetInverse(r, c, width, height, rotation);
    TargetInverse(r', c', width, height, rotation);
  }

  /** Each output slot is written, from its own origin and no other pixel. */
  lemma EverySlotOnce(row: nat, col: nat, width: nat, height: nat, rotation: Rotation)
    requires row < Turned(width, height, rotation).1 && col < Turned(width, height, rotation).0
    ensures var (r, c) := Origin(row, col, width, height, rotation);
            && r < height && c < width
            && Target(r, c, width, height, rotation) == At(row, col, Turned(width, height, rotation).0)
            && forall r': nat, c': nat | r' < height && c' < width
                 && Target(r', c', width, height, rotation) == At(row, col, Turned(width, height, rotation).0) ::
                 r' == r && c' == c
  {
    var (r, c) := Origin(row, col, width, height, rotation);
    forall r': nat, c': nat | r' < height && c' < width
      && Target(r', c', width, height, rotation) == At(row, col, Turned(width, height, rotation).0)
      ensures r' == r && c' == c
    {
      TargetInjective(r', c', r, c, width, height, rotation);
    }
  }

  ghost predicate RotatedSoFar(out: Bytes, src: Bytes, width: nat, height: nat, rotation: Rotation, row: nat, col: nat) {
    && |out| == width * height
    && (forall r: nat, c: nat | r < height && c < width && (r < row || (r == row && c < col)) ::
          RotatedAt(out, src, width, height, rotation, r, c))
    && (forall r: nat, c: nat | r < height && c < width && !(r < row || (r == row && c < col)) ::
          Target(r, c, width, height, rotation) < |out| ==> out[Target(r, c, width, height, rotation)] == 0)
  }

  lemma WritePixel(out: Bytes, out': Bytes, src: Bytes, width: nat, height: nat, rotation: Rotation, row: nat, col: nat)
    requires row < height && col < width && RotatedSoFar(out, src, width, height, rotation, row, col)
    requires Target(row, col, width, height, rotation) < |out|
    requires out' == if At(row, col, width) < |src| then out[Target(row, col, width, height, rotation) := src[At(row, col, width)]] else out
    ensures RotatedSoFar(out', src, width, height, rotation, row, col + 1)
  {
    hide Target, At;
    forall r: nat, c: nat | r < height && c < width
      ensures if r < row || (r == row && c < col + 1) then RotatedAt(out', src, width, height, rotation, r, c)
              else Target(r, c, width, height, rotation) < |out'| ==> out'[Target(r, c, width, height, rotation)] == 0
    {
      if Target(r, c, width, height, rotation) == Target(row, col, width, height, rotation) {
        TargetInjective(r, c, row, col, width, height, rotation);
      } else {
        assert r != row || c != col;
        if r < row || (r == row && c < col) { assert RotatedAt(out, src, width, height, rotation, r, c); }
      }
    }
  }

  /** Rotate a packed plane clockwise. */
  method RotatePlane(src: Bytes, width: nat, height: nat, rotation: Rotation) returns (res: array<Byte>)
    ensures fresh(res) && Rotated(res[..], src, width, height, rotation)
  {
    hide Target, At, RotatedSoFar, Rotated;
    res := new Byte[width * height](_ => 0);
    NothingRotated(res[..], src, width, height, rotation);
    for row := 0 to height
      invariant RotatedSoFar(res[..], src, width, height, rotation, row, 0)
    {
      for column := 0 to width
        invariant RotatedSoFar(res[..], src, width, height, rotation, row, column)
      {
        ghost var before := res[..];
        TargetInverse(row, column, width, height, rotation);
        var index := Target(row, column, width, height, rotation);
        if At(row, column, width) < |src| {
          res[index] := src[At(row, column, width)];
          assert res[..] == before[index := src[At(row, column, width)]];
        }
        WritePixel(before, res[..], src, width, height, rotation, row, column);
      }
      RowRotated(res[..], src, width, height, rotation, row);
    }
    AllRotated(res[..], src, width, height, rotation);
  }

  lemma NothingRotated(out: Bytes, src: Bytes, width: nat, height: nat, rotation: Rotation)
    requires |out| == width * height && forall i | 0 <= i < |out| :: out[i] == 0
    ensures RotatedSoFar(out, src, width, height, rotation, 0, 0)
  {
    hide Target, RotatedAt;
  }

  lemma RowRotated(out: Bytes, src: Bytes, width: nat, height: nat, rotation: Rotation, row: nat)
    requires RotatedSoFar(out, src, width, height, rotation, row, width)
    ensures RotatedSoFar(out, src, width, height, rotation, row + 1, 0)
  {
    hide Target, RotatedAt;
  }

  lemma AllRotated(out: Bytes, src: Bytes, width: nat, height: nat, rotation: Rotation)
    requires RotatedSoFar(out, src, width, height, rotation, height, 0)
    ensures Rotated(out, src, width, height, rotation)
  {
    hide Target, RotatedAt;
  }

  // ----- The algebra of turns

  /** The plane a buffer stands for: cut or zero-padded to its dimensions. */
  function Fit(src: Bytes, n: nat): Bytes {
    seq(n, i requires 0 <= i < n => Read(src, i))
  }

  /** A turn as a function: output (row, col) shows the input pixel it came from. */
  function Turn(src: Bytes, width: nat, height: nat, rotation: Rotation): (out: Bytes)
    ensures |out| == width * height
  {
    seq(width * height, i requires 0 <= i < width * height =>
      var w := Turned(width, height, rotation).0;
      InRect(i, width, height, rotation);
      var (r, c) := Origin(Row(i, w), Col(i, w), width, height, rotation);
      Read(src, At(r, c, width)))
  }

  lemma PositiveFactor(w: nat, h: nat)
    requires w * h > 0
    ensures w > 0
  {
  }

  lemma InRect(i: nat, width: nat, height: nat, rotation: Rotation)
    requires i < width * height
    ensures var (w, h) := Turned(width, height, rotation);
            w > 0 && Row(i, w) < h && Col(i, w) < w && At(Row(i, w), Col(i, w), w) == i
  {
    var (w, h) := Turned(width, height, rotation);
    assert width * height == height * width == w * h;
    PositiveFactor(w, h);
    if Row(i, w) >= h { MulLe(h, Row(i, w), w); }
  }

  /** The rotation written in place is this function. */
  lemma RotatedIsTurn(out: Bytes, src: Bytes, width: nat, height: nat, rotation: Rotation)
    requires Rotated(out, src, width, height, rotation)
    ensures out == Turn(src, width, height, rotation)
  {
    var w := Turned(width, height, rotation).0;
    forall i | 0 <= i < |out| ensures out[i] == Turn(src, width, height, rotation)[i] {
      InRect(i, width, height, rotation);
      var (r, c) := Origin(Row(i, w), Col(i, w), width, height, rotation);
      EverySlotOnce(Row(i, w), Col(i, w), width, height, rotation);
      assert RotatedAt(out, src, width, height, rotation, r, c);
    }
  }

  lemma TurnAt(src: Bytes, width: nat, height: nat, rotation: Rotation, row: nat, col: nat)
    requires row < Turned(width, height, rotation).1 && col < Turned(width, height, rotation).0
    ensures var w := Turned(width, height, rotation).0;
            var (r, c) := Origin(row, col, width, height, rotation);
            && At(row, col, w) < width * height
            && Turn(src, width, height, rotation)[At(row, col, w)] == Read(src, At(r, c, width))
  {
    var (w, h) := Turned(width, height, rotation);
    AtInRect(row, col, w, h);
    assert w * h == width * height by { assert height * width == width * height; }
    RowColOfAt(row, col, w);
  }

  /** Two turns read a pixel through both origins. */
  lemma TwoTurns(src: Bytes, width: nat, height: nat, a: Rotation, b: Rotation, row: nat, col: nat)
    requires var (w, h) := Turned(width, height, a);
             row < Turned(w, h, b).1 && col < Turned(w, h, b).0
    ensures var (w, h) := Turned(width, height, a);
            var w' := Turned(w, h, b).0;
            var (r, c) := Origin(row, col, w, h, b);
            var (r', c') := Origin(r, c, width, height, a);
            && At(row, col, w') < w * h
            && Turn(Turn(src, width, height, a), w, h, b)[At(row, col, w')] == Read(src, At(r', c', width))
  {
    hide Turn, At, Read;
    var (w, h) := Turned(width, height, a);
    var (r, c) := Origin(row, col, w, h, b);
    TurnAt(Turn(src, width, height, a), w, h, b, row, col);
    TurnAt(src, width, height, a, r, c);
    ReadInside(Turn(src, width, height, a), At(r, c, w));
  }

  lemma ReadInside(s: Bytes, i: nat)
    requires i < |s|
    ensures Read(s, i) == s[i]
  {
  }

  /** Two quarter turns are a half turn. */
  lemma QuarterTwiceIsHalf(src: Bytes, width: nat, height: nat)
    ensures Turn(Turn(src, width, height, Cw90), height, width, Cw90) == Turn(src, width, height, Cw180)
    ensures Turn(Turn(src, width, height, Cw270), height, width, Cw270) == Turn(src, width, height, Cw180)
  {
    hide Turn, At, Read, Row, Col;
    assert height * width == width * height;
    forall i | 0 <= i < width * height ensures
      && Turn(Turn(src, width, height, Cw90), height, width, Cw90)[i] == Turn(src, width, height, Cw180)[i]
      && Turn(Turn(src, width, height, Cw270), height, width, Cw270)[i] == Turn(src, width, height, Cw180)[i]
    {
      InRect(i, width, height, Cw180);
      var r, c := Row(i, width), Col(i, width);
      TwoTurns(src, width, height, Cw90, Cw90, r, c);
      TwoTurns(src, width, height, Cw270, Cw270, r, c);
      TurnAt(src, width, height, Cw180, r, c);
    }
  }

  /** A turn and the turn back leave the plane itself. */
  lemma TurnBack(src: Bytes, width: nat, height: nat)
    ensures Turn(Turn(src, width, height, Cw90), height, width, Cw270) == Fit(src, width * height)
    ensures Turn(Turn(src, width, height, Cw270), height, width, Cw90) == Fit(src, width * height)
    ensures Turn(Turn(src, width, height, Cw180), width, height, Cw180) == Fit(src, width * height)
  {
    hide Turn, At, Read, Row, Col;
    assert height * width == width * height;
    forall i | 0 <= i < width * height ensures
      && Turn(Turn(src, width, height, Cw90), height, width, Cw270)[i] == Read(src, i)
      && Turn(Turn(src, width, height, Cw270), height, width, Cw90)[i] == Read(src, i)
      && Turn(Turn(src, width, height, Cw180), width, height, Cw180)[i] == Read(src, i)
    {
      InRect(i, width, height, Cw180);
      var r, c := Row(i, width), Col(i, width);
      TwoTurns(src, width, height, Cw90, Cw270, r, c);
      TwoTurns(src, width, height, Cw270, Cw90, r, c);
      TwoTurns(src, width, height, Cw180, Cw180, r, c);
    }
  }

  /** Four quarter turns are no turn. */
  lemma FourQuarters(src: Bytes, width: nat, height: nat)
    ensures var once := Turn(src, width, height, Cw90);
            var twice := Turn(once, height, width, Cw90);
            var thrice := Turn(twice, width, height, Cw90);
            Turn(thrice, height, width, Cw90) == Fit(src, width * height)
  {
    hide Turn, Fit;
    var twice := Turn(Turn(src, width, height, Cw90), height, width, Cw90);
    QuarterTwiceIsHalf(src, width, height);
    QuarterTwiceIsHalf(twice, width, height);
    TurnBack(src, width, height);
  }

  // ----- Whole frames

  datatype RawFrame = RawFrame(width: nat, height: nat, y: Bytes, u: Bytes, v: Bytes)

  /** `x & !1` */
  function Even(x: nat): nat {
    x / 2 * 2
  }

  /** `degrees.rem_euclid(360)`, then the turn it stands for, if any */
  function TurnFor(degrees: int): Option<Rotation> {
    match degrees % 360
    case 90 => Some(Cw90)
    case 180 => Some(Cw180)
    case 270 => Some(Cw270)
    case _ => None
  }

  /** The packed plane, as a value. */
  function Packed(p: Plane, width: nat, height: nat): Bytes {
    seq(width * height, i requires 0 <= i < width * height =>
      InRect(i, width, height, Cw180);
      PixelAt(p, Row(i, width), Col(i, width)))
  }

  lemma PackedIs(out: Bytes, p: Plane, width: nat, height: nat)
    requires RowsPacked(out, p, width, height)
    ensures out == Packed(p, width, height)
  {
    hide PixelAt;
    assert height * width == width * height;
    forall i | 0 <= i < |out| ensures out[i] == Packed(p, width, height)[i] {
      InRect(i, width, height, Cw180);
      assert RowPacked(out, p, width, Row(i, width));
    }
  }

  function TurnedBy(width: nat, height: nat, t: Option<Rotation>): (nat, nat) {
    if t.None? then (width, height) else Turned(width, height, t.value)
  }

  /** A packed plane, turned if need be. */
  function PlaneOf(p: Plane, width: nat, height: nat, t: Option<Rotation>): Bytes {
    if t.None? then Packed(p, width, height) else Turn(Packed(p, width, height), width, height, t.value)
  }

  /** The frame a capture denotes: even dimensions, three planes at full and half
      size, all turned the same way. */
  function Frame(y: Plane, u: Plane, v: Plane, width: nat, height: nat, degrees: int): RawFrame {
    var w, h := Even(width), Even(height);
    var t := TurnFor(degrees);
    var (tw, th) := TurnedBy(w, h, t);
    RawFrame(tw, th, PlaneOf(y, w, h, t), PlaneOf(u, w / 2, h / 2, t), PlaneOf(v, w / 2, h / 2, t))
  }

  method RotateI420(y: Bytes, u: Bytes, v: Bytes, width: nat, height: nat, t: Rotation) returns (frame: RawFrame)
    ensures var (tw, th) := Turned(width, height, t);
            frame == RawFrame(tw, th, Turn(y, width, height, t),
                              Turn(u, width / 2, height / 2, t), Turn(v, width / 2, height / 2, t))
  {
    hide Turn, Rotated;
    var cw, ch := width / 2, height / 2;
    var ry := RotatePlane(y, width, height, t);
    var ru := RotatePlane(u, cw, ch, t);
    var rv := RotatePlane(v, cw, ch, t);
    RotatedIsTurn(ry[..], y, width, height, t);
    RotatedIsTurn(ru[..], u, cw, ch, t);
    RotatedIsTurn(rv[..], v, cw, ch, t);
    var (tw, th) := Turned(width, height, t);
    frame := RawFrame(tw, th, ry[..], ru[..], rv[..]);
  }

  method BuildFrame(y: Plane, u: Plane, v: Plane, width: nat, height: nat, degrees: int) returns (frame: RawFrame)
    ensures frame == Frame(y, u, v, width, height, degrees)
  {
    hide Packed, RowsPacked, Turn, Turned;
    var w, h := Even(width), Even(height);
    var cw, ch := w / 2, h / 2;
    var yPlane := PackPlane(y, w, h);
    var uPlane := PackPlane(u, cw, ch);
    var vPlane := PackPlane(v, cw, ch);
    PackedIs(yPlane, y, w, h);
    PackedIs(uPlane, u, cw, ch);
    PackedIs(vPlane, v, cw, ch);
    match TurnFor(degrees) {
      case None => frame := RawFrame(w, h, yPlane, uPlane, vPlane);
      case Some(t) => frame := RotateI420(yPlane, uPlane, vPlane, w, h, t);
    }
  }

  function OriginOf(row: nat, col: nat, width: nat, height: nat, t: Option<Rotation>): (nat, nat)
    requires row < TurnedBy(width, height, t).1 && col < TurnedBy(width, height, t).0
  {
    if t.None? then (row, col) else Origin(row, col, width, height, t.value)
  }

  /** Every pixel is the camera's own, found through the turn. */
  ghost predicate ShowsPlane(out: Bytes, p: Plane, width: nat, height: nat, t: Option<Rotation>) {
    var (w, h) := TurnedBy(width, height, t);
    && |out| == w * h
    && forall row: nat, col: nat | row < h && col < w ::
         var (r, c) := OriginOf(row, col, width, height, t);
         && r < height && c < width
         && At(row, col, w) < |out| && out[At(row, col, w)] == PixelAt(p, r, c)
  }

  lemma PlaneShows(p: Plane, width: nat, height: nat, t: Option<Rotation>)
    ensures ShowsPlane(PlaneOf(p, width, height, t), p, width, height, t)
  {
    hide PixelAt, At, Turn, Packed;
    var out := PlaneOf(p, width, height, t);
    var (w, h) := TurnedBy(width, height, t);
    assert |Packed(p, width, height)| == width * height by { PackedLength(p, width, height); }
    assert width * height == height * width;
    forall row: nat, col: nat | row < h && col < w
      ensures var (r, c) := OriginOf(row, col, width, height, t);
              && r < height && c < width
              && At(row, col, w) < |out| && out[At(row, col, w)] == PixelAt(p, r, c)
    {
      if t.None? {
        PackedAt(p, width, height, row, col);
      } else {
        var (r, c) := Origin(row, col, width, height, t.value);
        TurnAt(Packed(p, width, height), width, height, t.value, row, col);
        PackedAt(p, width, height, r, c);
        ReadInside(Packed(p, width, height), At(r, c, width));
      }
    }
  }

  lemma PackedLength(p: Plane, width: nat, height: nat)
    ensures |Packed(p, width, height)| == width * height
  {
  }

  /** Every pixel of a built frame, in all three planes, is the camera's own pixel found
      through the one turn; the chroma planes have half the frame's sides. */
  lemma FramePixels(y: Plane, u: Plane, v: Plane, width: nat, height: nat, degrees: int)
    ensures var f := Frame(y, u, v, width, height, degrees);
            var w, h := Even(width), Even(height);
            var t := TurnFor(degrees);
            && (f.width, f.height) == TurnedBy(w, h, t)
            && (f.width / 2, f.height / 2) == TurnedBy(w / 2, h / 2, t)
            && ShowsPlane(f.y, y, w, h, t)
            && ShowsPlane(f.u, u, w / 2, h / 2, t) && ShowsPlane(f.v, v, w / 2, h / 2, t)
  {
    hide ShowsPlane, Turn, Packed, Even;
    var w, h := Even(width), Even(height);
    var t := TurnFor(degrees);
    PlaneShows(y, w, h, t);
    PlaneShows(u, w / 2, h / 2, t);
    PlaneShows(v, w / 2, h / 2, t);
  }

  /** Output pixel (row, col) of a w-by-h plane turned clockwise by so many degrees: the
      byte that the strides lead to from where it turned from, or zero past the end. */
  ghost predicate TurnedPixel(out: Bytes, p: Plane, w: nat, h: nat, degrees: int, row: nat, col: nat) {
    var turned := degrees % 360;
    var (tw, th) := if turned == 90 || turned == 270 then (h, w) else (w, h);
    row < th && col < tw ==>
      var r := if turned == 90 then h - 1 - col else if turned == 180 then h - 1 - row
               else if turned == 270 then col else row;
      var c := if turned == 90 then row else if turned == 180 then w - 1 - col
               else if turned == 270 then w - 1 - row else col;
      var at := r * p.rowStride + c * p.pixelStride;
      var here: int := row * tw + col;
      && 0 <= here < |out|
      && out[here] == if 0 <= at < |p.data| then p.data[at] else 0
  }

  lemma ShownIsTurned(out: Bytes, p: Plane, w: nat, h: nat, degrees: int, row: nat, col: nat)
    requires ShowsPlane(out, p, w, h, TurnFor(degrees))
    ensures TurnedPixel(out, p, w, h, degrees, row, col)
  {
    var t := TurnFor(degrees);
    var (tw, th) := TurnedBy(w, h, t);
    if row < th && col < tw {
      var (r, c) := OriginOf(row, col, w, h, t);
      assert At(row, col, tw) < |out| && out[At(row, col, tw)] == PixelAt(p, r, c);
      Offset(p, r, c);
    }
  }

  lemma Offset(p: Plane, row: nat, col: nat)
    ensures row * p.rowStride + col * p.pixelStride >= 0
  {
  }

  /** The picture turns the right way.  At 90 degrees pixel (row, col) is the camera's
      (h - 1 - col, row), at 180 (h - 1 - row, w - 1 - col), at 270 (col, w - 1 - row),
      and otherwise (row, col), in all three planes, with odd edges cut off. */
  lemma TurnsClockwise(y: Plane, u: Plane, v: Plane, width: nat, height: nat, degrees: int, row: nat, col: nat)
    ensures var f := Frame(y, u, v, width, height, degrees);
            var w, h := width - width % 2, height - height % 2;
            && (f.width, f.height) == (if degrees % 180 == 90 then (h, w) else (w, h))
            && |f.y| == w * h && |f.u| == |f.v| == (w / 2) * (h / 2)
            && TurnedPixel(f.y, y, w, h, degrees, row, col)
            && TurnedPixel(f.u, u, w / 2, h / 2, degrees, row, col)
            && TurnedPixel(f.v, v, w / 2, h / 2, degrees, row, col)
  {
    hide ShowsPlane, TurnedPixel;
    var w, h := width - width % 2, height - height % 2;
    EvenIs(width);
    EvenIs(height);
    FramePixels(y, u, v, width, height, degrees);
    var f := Frame(y, u, v, width, height, degrees);
    PlaneSize(f.y, y, w, h, degrees);
    PlaneSize(f.u, u, w / 2, h / 2, degrees);
    PlaneSize(f.v, v, w / 2, h / 2, degrees);
    ShownIsTurned(f.y, y, w, h, degrees, row, col);
    ShownIsTurned(f.u, u, w / 2, h / 2, degrees, row, col);
    ShownIsTurned(f.v, v, w / 2, h / 2, degrees, row, col);
    QuarterTurns(degrees);
  }

  lemma EvenIs(x: nat)
    ensures Even(x) == x - x % 2
  {
  }

  lemma PlaneSize(out: Bytes, p: Plane, w: nat, h: nat, degrees: int)
    requires ShowsPlane(out, p, w, h, TurnFor(degrees))
    ensures |out| == w * h
  {
    assert w * h == h * w;
  }

  lemma QuarterTurns(degrees: int)
    ensures degrees % 180 == 90 <==> degrees % 360 == 90 || degrees % 360 == 270
  {
  }

  lemma PackedAt(p: Plane, width: nat, height: nat, row: nat, col: nat)
    requires row < height && col < width
    ensures |Packed(p, width, height)| == width * height && At(row, col, width) < width * height
    ensures Packed(p, width, height)[At(row, col, width)] == PixelAt(p, row, col)
  {
    hide PixelAt;
    AtInRect(row, col, width, height);
    RowColOfAt(row, col, width);
  }
}
