/**
 * array_to_point_cloud2: a dictionary of columns becomes a PointCloud2
 * message, built step by step. The field list, point_step, row_step, width,
 * height and is_dense are chosen from which keys are present; the data is
 * the xyz column's float32 bytes, followed, for rgb, by the rgb column's
 * bytes, each component widened to a uint32.
 */
module Encode {
  import opened Layout

  /**
   * np.hstack called with several positional arguments (the branches with an
   * intensity column) raises TypeError before any data is produced.
   */
  datatype EncodeError = HstackTypeError

  /** A sensor_msgs/PointCloud2 message without its header. */
  class PointCloud2 {
    var height: nat
    var width: nat
    var fields: seq<PointField>
    var isBigendian: bool
    var pointStep: nat
    var rowStep: nat
    var data: seq<bv8>
    var isDense: bool

    /** PointCloud2(): every field at its message default. */
    constructor ()
      ensures height == 0 && width == 0 && fields == [] && !isBigendian
      ensures pointStep == 0 && rowStep == 0 && data == [] && !isDense
    {
      height := 0;
      width := 0;
      fields := [];
      isBigendian := false;
      pointStep := 0;
      rowStep := 0;
      data := [];
      isDense := false;
    }
  }

  /** The height of every message the encoder builds: one unordered row of points. */
  const EncodedHeight: nat := 1

  const XField := PointField("x", 0, FLOAT32, 1)
  const YField := PointField("y", 4, FLOAT32, 1)
  const ZField := PointField("z", 8, FLOAT32, 1)
  const RgbField := PointField("rgb", 12, UINT32, 1)
  const IntensityField := PointField("intensity", 16, UINT16, 1)

  /** The field list the encoder writes for the given key set. */
  function EncodedFields(hasRgb: bool, hasIntensity: bool): seq<PointField> {
    [XField, YField, ZField]
    + (if hasRgb then [RgbField] else [])
    + (if hasIntensity then [IntensityField] else [])
  }

  /** The point_step the encoder leaves in the message; previous is the value it had before. */
  function EncodedPointStep(hasRgb: bool, hasIntensity: bool, previous: nat): nat {
    if hasRgb && hasIntensity then 18
    else if hasRgb then 16
    else if hasIntensity then 14
    else previous
  }

  /** np.isnan(xyz).any(), as a scan over the rows. */
  function AnyNaN(xyz: seq<Point>, host: ByteOrder): bool {
    if |xyz| == 0 then false
    else PointHasNaN(xyz[0], host) || AnyNaN(xyz[1..], host)
  }

  /**
   * The scan finds a NaN exactly when some coordinate of some row is a NaN,
   * so is_dense is false exactly then.
   */
  lemma {:induction false} AnyNaNIff(xyz: seq<Point>, host: ByteOrder)
    ensures AnyNaN(xyz, host) <==> exists i :: 0 <= i < |xyz| && PointHasNaN(xyz[i], host)
  {
    if |xyz| > 0 {
      AnyNaNIff(xyz[1..], host);
      if AnyNaN(xyz[1..], host) {
        var i :| 0 <= i < |xyz| - 1 && PointHasNaN(xyz[1..][i], host);
        assert PointHasNaN(xyz[i + 1], host);
      }
      if exists i :: 0 <= i < |xyz| && PointHasNaN(xyz[i], host) {
        var i :| 0 <= i < |xyz| && PointHasNaN(xyz[i], host);
        if i > 0 {
          assert PointHasNaN(xyz[1..][i - 1], host);
        }
      }
    }
  }

  /** xyz.astype(np.float32).tobytes(): the rows' float32 bytes in row order. */
  function XyzBytes(xyz: seq<Point>): seq<bv8> {
    Flatten(seq(|xyz|, i requires 0 <= i < |xyz| => PointBytes(xyz[i])))
  }

  /** One rgb row's components widened to native-endian uint32 bytes. */
  function RgbRowBytes(row: seq<bv8>, host: ByteOrder): seq<bv8> {
    Flatten(seq(|row|, j requires 0 <= j < |row| => Widen32(row[j], host)))
  }

  /** rgb.astype(np.uint32).tobytes(): every component as 4 bytes, in row order. */
  function RgbBytes(rgb: seq<seq<bv8>>, host: ByteOrder): seq<bv8> {
    Flatten(seq(|rgb|, i requires 0 <= i < |rgb| => RgbRowBytes(rgb[i], host)))
  }

  /** s followed by zero bytes up to length m. */
  function Pad(s: seq<bv8>, m: nat): (r: seq<bv8>)
    requires |s| <= m
    ensures |r| == m && r[..|s|] == s
    ensures forall j :: |s| <= j < m ==> r[j] == 0
  {
    s + seq(m - |s|, _ => 0)
  }

  /**
   * The buffer of np.hstack((a, b)) on two bytes objects: numpy makes each a
   * one-element byte-string array of the longer length (never less than 1)
   * and pads the shorter one with zero bytes.
   */
  function Hstack2(a: seq<bv8>, b: seq<bv8>): (r: seq<bv8>)
    ensures var m := Max(Max(|a|, |b|), 1);
      && |r| == 2 * m
      && r[..|a|] == a
      && r[m .. m + |b|] == b
      && (forall j :: |a| <= j < m ==> r[j] == 0)
      && (forall j :: m + |b| <= j < 2 * m ==> r[j] == 0)
  {
    var m := Max(Max(|a|, |b|), 1);
    var r := Pad(a, m) + Pad(b, m);
    assert r[m .. m + |b|] == Pad(b, m)[..|b|];
    r
  }

  /** The message data the encoder produces, or the error it raises. */
  function EncodedData(cloud: PointSet, host: ByteOrder): Result<seq<bv8>, EncodeError> {
    if cloud.intensity.Some? then Failure(HstackTypeError)
    else if cloud.rgb.Some? then Success(Hstack2(XyzBytes(cloud.xyz), RgbBytes(cloud.rgb.value, host)))
    else Success(XyzBytes(cloud.xyz))
  }

  /**
   * The metadata half of array_to_point_cloud2: height, width, the field
   * list, the byte-order flag, is_dense, point_step and row_step. The
   * point_step is left as it was when neither rgb nor intensity is present.
   */
  method FillLayout(msg: PointCloud2, xyz: seq<Point>, rgbFlag: bool, intensityFlag: bool, host: ByteOrder)
    modifies msg
    ensures msg.height == EncodedHeight
    ensures msg.width == |xyz|
    ensures msg.fields == EncodedFields(rgbFlag, intensityFlag)
    ensures msg.isBigendian == (host != Little)
    ensures msg.isDense == !AnyNaN(xyz, host)
    ensures msg.pointStep == EncodedPointStep(rgbFlag, intensityFlag, old(msg.pointStep))
    ensures msg.rowStep == msg.pointStep * msg.width
    ensures msg.data == old(msg.data)
  {
    msg.height := 1;
    msg.width := |xyz|;
    msg.fields := [XField, YField, ZField];
    if rgbFlag {
      msg.fields := msg.fields + [RgbField];
    }
    if intensityFlag {
      msg.fields := msg.fields + [IntensityField];
    }
    msg.isBigendian := host != Little;
    msg.isDense := !AnyNaN(xyz, host);

    if rgbFlag && intensityFlag {
      msg.pointStep := 18;
    }
    if rgbFlag && !intensityFlag {
      msg.pointStep := 16;
    }
    if !rgbFlag && intensityFlag {
      msg.pointStep := 14;
    }
    msg.rowStep := msg.pointStep * msg.width;
  }

  /**
   * array_to_point_cloud2. The header (frame_id and time stamp) is not part
   * of this model.
   */
  method ArrayToPointCloud2(cloud: PointSet, host: ByteOrder) returns (r: Result<PointCloud2, EncodeError>)
    ensures r.Failure? <==> cloud.intensity.Some?
    ensures r.Failure? ==> r.error == HstackTypeError
    ensures r.Success? ==>
      var msg := r.value;
      && fresh(msg)
      && msg.height == EncodedHeight
      && msg.width == |cloud.xyz|
      && msg.fields == EncodedFields(cloud.rgb.Some?, false)
      && msg.isBigendian == (host != Little)
      && msg.isDense == !AnyNaN(cloud.xyz, host)
      && msg.pointStep == EncodedPointStep(cloud.rgb.Some?, false, 0)
      && msg.rowStep == msg.pointStep * msg.width
      && EncodedData(cloud, host).Success?
      && msg.data == EncodedData(cloud, host).value
  {
    var rgbFlag := cloud.rgb.Some?;
    var intensityFlag := cloud.intensity.Some?;

    var msg := new PointCloud2();
    FillLayout(msg, cloud.xyz, rgbFlag, intensityFlag, host);

    var memoryView: seq<bv8>;
    if intensityFlag {
      // both hstack branches with an intensity column raise TypeError
      return Failure(HstackTypeError);
    } else if rgbFlag {
      memoryView := Hstack2(XyzBytes(cloud.xyz), RgbBytes(cloud.rgb.value, host));
    } else {
      memoryView := XyzBytes(cloud.xyz);
    }

    var arrayBytes: seq<bv8>;
    if |memoryView| > 0 {
      arrayBytes := memoryView;
    } else {
      arrayBytes := [];
    }

    var asArray: seq<bv8> := [];
    asArray := asArray + arrayBytes;
    msg.data := asArray;
    r := Success(msg);
  }

  /** The xyz bytes hold 12 bytes per row, row i at bytes 12*i .. 12*i + 12. */
  lemma {:induction false} XyzBytesAt(xyz: seq<Point>, i: nat)
    requires i < |xyz|
    ensures |XyzBytes(xyz)| == 12 * |xyz|
    ensures XyzBytes(xyz)[12 * i .. 12 * i + 12] == PointBytes(xyz[i])
  {
    var rows := seq(|xyz|, k requires 0 <= k < |xyz| => PointBytes(xyz[k]));
    FlattenUniformAt(rows, 12, i, 12 * i);
  }

  lemma XyzBytesLength(xyz: seq<Point>)
    ensures |XyzBytes(xyz)| == 12 * |xyz|
  {
    var rows := seq(|xyz|, k requires 0 <= k < |xyz| => PointBytes(xyz[k]));
    FlattenUniformLength(rows, 12);
  }

  lemma {:induction false} RgbRowBytesLength(row: seq<bv8>, host: ByteOrder)
    ensures |RgbRowBytes(row, host)| == 4 * |row|
  {
    var words := seq(|row|, c requires 0 <= c < |row| => Widen32(row[c], host));
    FlattenUniformLength(words, 4);
  }

  /** A three-component rgb row takes 12 bytes, component j at bytes 4*j .. 4*j + 4. */
  lemma {:induction false} RgbRowBytesAt(row: seq<bv8>, host: ByteOrder, j: nat)
    requires |row| == 3 && j < 3
    ensures |RgbRowBytes(row, host)| == 12
    ensures RgbRowBytes(row, host)[4 * j .. 4 * j + 4] == Widen32(row[j], host)
  {
    var words := seq(|row|, c requires 0 <= c < |row| => Widen32(row[c], host));
    FlattenUniformAt(words, 4, j, 4 * j);
  }

  /** With three components per row, the rgb bytes hold 12 bytes per row. */
  lemma {:induction false} RgbBytesLength(rgb: seq<seq<bv8>>, host: ByteOrder)
    requires forall k :: 0 <= k < |rgb| ==> |rgb[k]| == 3
    ensures |RgbBytes(rgb, host)| == 12 * |rgb|
  {
    var rows := seq(|rgb|, k requires 0 <= k < |rgb| => RgbRowBytes(rgb[k], host));
    forall k | 0 <= k < |rgb| ensures |rows[k]| == 12 {
      RgbRowBytesLength(rgb[k], host);
    }
    FlattenUniformLength(rows, 12);
  }

  /** Row i of three components occupies bytes 12*i .. 12*i + 12 of the rgb bytes. */
  lemma {:induction false} RgbBytesRow(rgb: seq<seq<bv8>>, host: ByteOrder, i: nat)
    requires forall k :: 0 <= k < |rgb| ==> |rgb[k]| == 3
    requires i < |rgb|
    ensures |RgbBytes(rgb, host)| == 12 * |rgb|
    ensures RgbBytes(rgb, host)[12 * i .. 12 * i + 12] == RgbRowBytes(rgb[i], host)
  {
    var rows := seq(|rgb|, k requires 0 <= k < |rgb| => RgbRowBytes(rgb[k], host));
    forall k | 0 <= k < |rgb| ensures |rows[k]| == 12 {
      RgbRowBytesLength(rgb[k], host);
    }
    FlattenUniformAt(rows, 12, i, 12 * i);
  }

  /**
   * With three components per row, component j of row i is the widened
   * uint32 at bytes 12*i + 4*j .. 12*i + 4*j + 4 of the rgb bytes.
   */
  lemma {:induction false} RgbBytesAt(rgb: seq<seq<bv8>>, host: ByteOrder, i: nat, j: nat)
    requires forall k :: 0 <= k < |rgb| ==> |rgb[k]| == 3
    requires i < |rgb| && j < 3
    ensures |RgbBytes(rgb, host)| == 12 * |rgb|
    ensures RgbBytes(rgb, host)[12 * i + 4 * j .. 12 * i + 4 * j + 4] == Widen32(rgb[i][j], host)
  {
    RgbBytesRow(rgb, host, i);
    RgbRowBytesAt(rgb[i], host, j);
    SliceOfSlice(RgbBytes(rgb, host), 12 * i, 12 * i + 12, 4 * j, 4 * j + 4);
  }

  /**
   * The fields name x, y, z first; "rgb" is a name iff the rgb key is
   * present and "intensity" iff the intensity key is; rgb sits at offset 12
   * and intensity at offset 16 whether or not rgb precedes it.
   */
  lemma EncodedFieldsShape(hasRgb: bool, hasIntensity: bool)
    ensures var fs := EncodedFields(hasRgb, hasIntensity);
      && |fs| == 3 + (if hasRgb then 1 else 0) + (if hasIntensity then 1 else 0)
      && Names(fs)[..3] == ["x", "y", "z"]
      && fs[0].offset == 0 && fs[1].offset == 4 && fs[2].offset == 8
      && (forall i :: 0 <= i < 3 ==> fs[i].dataType == FLOAT32 && fs[i].count == 1)
      && ("rgb" in Names(fs) <==> hasRgb)
      && ("intensity" in Names(fs) <==> hasIntensity)
      && (hasRgb ==> fs[3] == PointField("rgb", 12, UINT32, 1))
      && (hasIntensity ==> fs[|fs| - 1] == PointField("intensity", 16, UINT16, 1))
  {
    var fs := EncodedFields(hasRgb, hasIntensity);
    assert Names(fs)[..3] == ["x", "y", "z"];
    if hasRgb {
      assert Names(fs)[3] == "rgb";
    }
    if hasIntensity {
      assert Names(fs)[|fs| - 1] == "intensity";
    }
  }

  /**
   * The encoder's layout meets the record layout invariant (every field
   * inside point_step, no overlaps) exactly when the rgb key is present:
   * intensity-only puts a 2-byte field at offset 16 in a 14-byte record, and
   * xyz-only leaves point_step at 0.
   */
  lemma EncodedLayoutWellFormedIff(hasRgb: bool, hasIntensity: bool)
    ensures WellFormedLayout(EncodedFields(hasRgb, hasIntensity), EncodedPointStep(hasRgb, hasIntensity, 0)) <==> hasRgb
  {
    var fs := EncodedFields(hasRgb, hasIntensity);
    var step := EncodedPointStep(hasRgb, hasIntensity, 0);
    if !hasRgb {
      var last := |fs| - 1;
      assert fs[last].offset + Extent(fs[last]) > step;
    }
  }

  /**
   * xyz-only: the data is the xyz float32 bytes, 12 per row in row order
   * (empty for no rows).
   */
  lemma {:induction false} EncodedXyzOnly(cloud: PointSet, host: ByteOrder)
    requires cloud.rgb.None? && cloud.intensity.None?
    ensures EncodedData(cloud, host).Success?
    ensures var data := EncodedData(cloud, host).value;
      && |data| == 12 * |cloud.xyz|
      && (forall i :: 0 <= i < |cloud.xyz| ==> data[12 * i .. 12 * i + 12] == PointBytes(cloud.xyz[i]))
  {
    XyzBytesLength(cloud.xyz);
    forall i | 0 <= i < |cloud.xyz|
      ensures XyzBytes(cloud.xyz)[12 * i .. 12 * i + 12] == PointBytes(cloud.xyz[i])
    {
      XyzBytesAt(cloud.xyz, i);
    }
  }

  /**
   * With rows, np.hstack of the xyz bytes and the rgb bytes is their plain
   * concatenation, because both columns take 12 bytes per row.
   */
  lemma {:induction false} RgbOnlyConcatenates(xyz: seq<Point>, rgb: seq<seq<bv8>>, host: ByteOrder)
    requires |rgb| == |xyz| > 0
    requires forall k :: 0 <= k < |rgb| ==> |rgb[k]| == 3
    ensures Hstack2(XyzBytes(xyz), RgbBytes(rgb, host)) == XyzBytes(xyz) + RgbBytes(rgb, host)
    ensures |XyzBytes(xyz)| == 12 * |xyz| && |RgbBytes(rgb, host)| == 12 * |xyz|
  {
    var a := XyzBytes(xyz);
    var b := RgbBytes(rgb, host);
    XyzBytesLength(xyz);
    RgbBytesLength(rgb, host);
    assert Max(Max(|a|, |b|), 1) == |a|;
    var data := Hstack2(a, b);
    assert data[..|a|] == a && data[|a| ..] == b;
  }

  /**
   * rgb-only with one three-component rgb row per xyz row: the data is all
   * xyz bytes followed by all rgb bytes (not one record per row), 24 bytes
   * per row against a point_step of 16. With no rows it is two zero bytes.
   */
  lemma {:induction false} EncodedRgbOnly(cloud: PointSet, host: ByteOrder)
    requires cloud.rgb.Some? && cloud.intensity.None?
    requires |cloud.rgb.value| == |cloud.xyz|
    requires forall k :: 0 <= k < |cloud.rgb.value| ==> |cloud.rgb.value[k]| == 3
    ensures EncodedData(cloud, host).Success?
    ensures var n := |cloud.xyz|;
      var data := EncodedData(cloud, host).value;
      && (n == 0 ==> data == [0, 0])
      && (n > 0 ==> data == XyzBytes(cloud.xyz) + RgbBytes(cloud.rgb.value, host) && |data| == 24 * n)
  {
    var rgb := cloud.rgb.value;
    if |cloud.xyz| == 0 {
      var data := EncodedData(cloud, host).value;
      assert XyzBytes(cloud.xyz) == [] && RgbBytes(rgb, host) == [];
      assert |data| == 2;
      assert data == [0, 0];
    } else {
      RgbOnlyConcatenates(cloud.xyz, rgb, host);
    }
  }

  /** In the xyz bytes followed by the rgb bytes, component j of row i sits at byte 12*N + 12*i + 4*j. */
  lemma {:induction false} ConcatenatedRgbAt(xyz: seq<Point>, rgb: seq<seq<bv8>>, host: ByteOrder)
    requires |rgb| == |xyz|
    requires forall k :: 0 <= k < |rgb| ==> |rgb[k]| == 3
    ensures |XyzBytes(xyz)| == 12 * |xyz| && |RgbBytes(rgb, host)| == 12 * |xyz|
    ensures var n := |xyz|;
      var data := XyzBytes(xyz) + RgbBytes(rgb, host);
      forall i, j :: 0 <= i < n && 0 <= j < 3 ==>
        data[12 * n + 12 * i + 4 * j .. 12 * n + 12 * i + 4 * j + 4] == Widen32(rgb[i][j], host)
  {
    var n := |xyz|;
    var a := XyzBytes(xyz);
    var b := RgbBytes(rgb, host);
    XyzBytesLength(xyz);
    RgbBytesLength(rgb, host);
    forall i, j | 0 <= i < n && 0 <= j < 3
      ensures (a + b)[12 * n + 12 * i + 4 * j .. 12 * n + 12 * i + 4 * j + 4] == Widen32(rgb[i][j], host)
    {
      RgbBytesAt(rgb, host, i, j);
      assert (a + b)[12 * n + 12 * i + 4 * j .. 12 * n + 12 * i + 4 * j + 4] == b[12 * i + 4 * j .. 12 * i + 4 * j + 4];
    }
  }

  /**
   * Whenever the encoder returns a message with rows, row_step * height
   * disagrees with the data length, whatever the shape of the rgb column:
   * xyz-only has a row_step of 0, and rgb-only a row_step of 16 per row
   * against at least 24 data bytes per row (twice the 12 xyz bytes).
   */
  lemma {:induction false} RowStepDisagreesWithData(cloud: PointSet, host: ByteOrder)
    requires cloud.intensity.None?
    requires |cloud.xyz| > 0
    ensures EncodedData(cloud, host).Success?
    ensures |EncodedData(cloud, host).value| != EncodedPointStep(cloud.rgb.Some?, false, 0) * |cloud.xyz| * EncodedHeight
  {
    var a := XyzBytes(cloud.xyz);
    XyzBytesLength(cloud.xyz);
    if cloud.rgb.Some? {
      var b := RgbBytes(cloud.rgb.value, host);
      assert |Hstack2(a, b)| >= 2 * |a|;
    }
  }
}
