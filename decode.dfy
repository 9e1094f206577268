/**
 * point_cloud2_to_array: a PointCloud2's fields, point_step and data are
 * turned into the dictionary of columns. The data is reshaped into rows of
 * point_step bytes and fixed byte windows are cut out of every row; numpy's
 * slicing clamps a window to the row, and its view to a wider dtype fails
 * unless the window's width is a multiple of the new item size.
 */
module Decode {
  import opened Layout

  /** numpy's ValueError from reshape, and from view to a wider dtype. */
  datatype DecodeError = ReshapeError | ViewError

  /**
   * The data reshaped to n rows of step bytes (reshape(-1, point_step)):
   * n rows of exactly step bytes that concatenate back to the data.
   */
  function Rows(data: seq<bv8>, step: nat, n: nat): (rows: seq<seq<bv8>>)
    requires |data| == n * step
    ensures |rows| == n
    ensures forall i :: 0 <= i < n ==> |rows[i]| == step
    ensures Flatten(rows) == data
    decreases n
  {
    if n == 0 then []
    else
      var rest := Rows(data[step..], step, n - 1);
      assert ([data[..step]] + rest)[1..] == rest;
      [data[..step]] + rest
  }

  /** A length that step divides is a whole number of records (numpy's reshape(-1, step)). */
  lemma WholeRecords(len: nat, step: nat)
    requires step > 0 && len % step == 0
    ensures len == (len / step) * step
  {
  }

  /** Row i of the reshaped data is the step bytes of the data from start = i*step on. */
  lemma RowsAt(data: seq<bv8>, step: nat, n: nat, i: nat, start: int)
    requires |data| == n * step
    requires i < n
    requires start == i * step
    ensures 0 <= start && start + step <= |data|
    ensures Rows(data, step, n)[i] == data[start .. start + step]
  {
    FlattenUniformAt(Rows(data, step, n), step, i, start);
  }

  /** Byte j of row i of the reshaped data is byte start + j of the data. */
  lemma RecordByteAt(data: seq<bv8>, step: nat, n: nat, i: nat, start: int, j: nat)
    requires |data| == n * step
    requires i < n && j < step
    requires start == i * step
    ensures 0 <= start && start + j < |data|
    ensures Rows(data, step, n)[i][j] == data[start + j]
  {
    RowsAt(data, step, n, i, start);
  }

  /** numpy's basic slice row[lo:hi]: both bounds are clamped to the row. */
  function Slice(row: seq<bv8>, lo: nat, hi: nat): seq<bv8>
    requires lo <= hi
  {
    row[Min(lo, |row|)..Min(hi, |row|)]
  }

  /** pc_data[:, lo:lo+c] as a sequence of rows. */
  function SliceColumns(rows: seq<seq<bv8>>, lo: nat, c: nat): seq<seq<bv8>> {
    seq(|rows|, i requires 0 <= i < |rows| => Slice(rows[i], lo, lo + c))
  }

  function Reverse(s: seq<bv8>): (r: seq<bv8>)
    ensures |r| == |s|
  {
    seq(|s|, j requires 0 <= j < |s| => s[|s| - 1 - j])
  }

  /** Bytes viewed as native-endian uint16 values (view(dtype=np.uint16) of an even-width slice). */
  function Uint16s(s: seq<bv8>, host: ByteOrder): seq<uint16>
    decreases |s|
  {
    if |s| < 2 then [] else [LoadUint16(s[0], s[1], host)] + Uint16s(s[2..], host)
  }

  /** The float32 bytes reshaped to rows of three words (view(np.float32).reshape(-1, 3)). */
  function ToPoints(b: seq<bv8>): (r: seq<Point>)
    requires |b| % 12 == 0
    ensures |r| * 12 == |b|
  {
    seq(|b| / 12, i requires 0 <= i < |b| / 12 => PointOf(b[12 * i .. 12 * i + 12]))
  }

  /** The rgb column: the 3-byte window at k of every row, reversed. */
  function RgbColumn(rows: seq<seq<bv8>>, k: nat): seq<seq<bv8>> {
    seq(|rows|, i requires 0 <= i < |rows| => Reverse(Slice(rows[i], k, k + 3)))
  }

  /** The intensity column: the 2-byte window at k of every row, as uint16 values. */
  function IntensityColumn(rows: seq<seq<bv8>>, k: nat, host: ByteOrder): seq<seq<uint16>> {
    seq(|rows|, i requires 0 <= i < |rows| => Uint16s(Slice(rows[i], k, k + 2), host))
  }

  /**
   * point_cloud2_to_array. It reads only msg.fields, msg.point_step and
   * msg.data, and numpy's native byte order. The windows for "rgb" and
   * "intensity" start at the field's POSITION in msg.fields, not at its offset;
   * x, y and z are not looked up at all.
   */
  function PointCloud2ToArray(fields: seq<PointField>, pointStep: nat, data: seq<bv8>, host: ByteOrder)
    : (r: Result<PointSet, DecodeError>)
  {
    if pointStep == 0 || |data| % pointStep != 0 then Failure(ReshapeError)
    else DecodeRecords(Names(fields), Rows(data, pointStep, |data| / pointStep), pointStep, host)
  }

  /** The part of point_cloud2_to_array after the reshape into records of pointStep bytes. */
  function DecodeRecords(names: seq<string>, rows: seq<seq<bv8>>, pointStep: nat, host: ByteOrder)
    : (r: Result<PointSet, DecodeError>)
    ensures r.Success? ==> (r.value.rgb.Some? <==> "rgb" in names)
    ensures r.Success? ==> (r.value.intensity.Some? <==> "intensity" in names)
  {
    var rgbIdx := IndexOf(names, "rgb");
    var intensityIdx := IndexOf(names, "intensity");
    if Min(12, pointStep) % 4 != 0 then Failure(ViewError)
    else
      var xyzBytes := Flatten(SliceColumns(rows, 0, 12));
      if |xyzBytes| % 12 != 0 then Failure(ReshapeError)
      else if intensityIdx.Some?
              && (Min(intensityIdx.value + 2, pointStep) - Min(intensityIdx.value, pointStep)) % 2 != 0
      then Failure(ViewError)
      else
        Success(PointSet(
          ToPoints(xyzBytes),
          if rgbIdx.Some? then Some(RgbColumn(rows, rgbIdx.value)) else None,
          if intensityIdx.Some? then Some(IntensityColumn(rows, intensityIdx.value, host)) else None))
  }

  /** Every sliced row is exactly as wide as the slice of a point_step-byte row. */
  lemma SliceColumnsUniform(rows: seq<seq<bv8>>, step: nat, lo: nat, c: nat)
    requires forall i :: 0 <= i < |rows| ==> |rows[i]| == step
    ensures |SliceColumns(rows, lo, c)| == |rows|
    ensures forall i :: 0 <= i < |rows| ==> |SliceColumns(rows, lo, c)[i]| == (Min(lo + c, step) - Min(lo, step))
  {
  }

  /**
   * The conditions under which numpy raises nothing, for a buffer of len
   * bytes and "intensity" at index intensityIdx of the field list:
   * point_step is not 0 and divides the buffer, the xyz window is a whole
   * number of float32s, the float32s fill whole xyz triples, and the
   * intensity window has an even width.
   */
  predicate Decodable(pointStep: nat, len: nat, intensityIdx: Option<nat>) {
    && pointStep > 0
    && len % pointStep == 0
    && Min(12, pointStep) % 4 == 0
    && ((len / pointStep) * Min(12, pointStep)) % 12 == 0
    && (intensityIdx.None? || (Min(intensityIdx.value + 2, pointStep) - Min(intensityIdx.value, pointStep)) % 2 == 0)
  }

  /** The record-level decode fails exactly when one of numpy's views or reshapes raises. */
  lemma RecordsSucceedIff(names: seq<string>, rows: seq<seq<bv8>>, pointStep: nat, host: ByteOrder)
    requires forall i :: 0 <= i < |rows| ==> |rows[i]| == pointStep
    ensures var w := Min(12, pointStep);
      var k := IndexOf(names, "intensity");
      DecodeRecords(names, rows, pointStep, host).Success? <==>
        && w % 4 == 0
        && (|rows| * w) % 12 == 0
        && (k.None? || (Min(k.value + 2, pointStep) - Min(k.value, pointStep)) % 2 == 0)
  {
    var cols := SliceColumns(rows, 0, 12);
    SliceColumnsUniform(rows, pointStep, 0, 12);
    FlattenUniformLength(cols, Min(12, pointStep));
  }

  /** Decoding fails exactly when numpy raises. */
  lemma DecodeSucceedsIff(fields: seq<PointField>, pointStep: nat, data: seq<bv8>, host: ByteOrder)
    ensures PointCloud2ToArray(fields, pointStep, data, host).Success? <==>
      Decodable(pointStep, |data|, IndexOf(Names(fields), "intensity"))
  {
    var k := IndexOf(Names(fields), "intensity");
    if pointStep > 0 && |data| % pointStep == 0 {
      WholeRecords(|data|, pointStep);
      var n := |data| / pointStep;
      var rows := Rows(data, pointStep, n);
      var w := Min(12, pointStep);
      var total := n * w;
      var windows := k.None? || (Min(k.value + 2, pointStep) - Min(k.value, pointStep)) % 2 == 0;
      RecordsSucceedIff(Names(fields), rows, pointStep, host);
      assert DecodeRecords(Names(fields), rows, pointStep, host).Success? <==>
        w % 4 == 0 && total % 12 == 0 && windows;
      assert Decodable(pointStep, |data|, k) <==> w % 4 == 0 && total % 12 == 0 && windows;
    }
  }

  /**
   * The decoded dictionary has key "xyz", key "rgb" exactly when "rgb" is a
   * field name and key "intensity" exactly when "intensity" is one.
   */
  lemma DecodedKeys(fields: seq<PointField>, pointStep: nat, data: seq<bv8>, host: ByteOrder)
    requires PointCloud2ToArray(fields, pointStep, data, host).Success?
    ensures Keys(PointCloud2ToArray(fields, pointStep, data, host).value) == {"xyz"}
      + (if "rgb" in Names(fields) then {"rgb"} else {})
      + (if "intensity" in Names(fields) then {"intensity"} else {})
  {
  }

  /** A successful decode reshaped the data into records and decoded those. */
  lemma SuccessfulDecodeUnfolds(fields: seq<PointField>, pointStep: nat, data: seq<bv8>, host: ByteOrder)
    requires PointCloud2ToArray(fields, pointStep, data, host).Success?
    ensures pointStep > 0 && |data| % pointStep == 0
    ensures |data| == (|data| / pointStep) * pointStep
    ensures PointCloud2ToArray(fields, pointStep, data, host)
      == DecodeRecords(Names(fields), Rows(data, pointStep, |data| / pointStep), pointStep, host)
  {
  }

  /** With records of at least 12 bytes, only a ragged buffer or an odd intensity window is refused. */
  lemma WideDecodable(pointStep: nat, len: nat, intensityIdx: Option<nat>)
    requires pointStep >= 12
    ensures Decodable(pointStep, len, intensityIdx) <==>
      len % pointStep == 0 && intensityIdx != Some(pointStep - 1)
  {
    assert Min(12, pointStep) == 12;
    var n := len / pointStep;
    assert (n * 12) % 12 == 0;
    if intensityIdx.Some? {
      assert (Min(intensityIdx.value + 2, pointStep) - Min(intensityIdx.value, pointStep)) % 2 != 0 <==> intensityIdx.value == pointStep - 1;
    }
  }

  /** With records of at least 12 bytes, decoding fails only on a ragged buffer or an intensity field at index point_step - 1. */
  lemma WideRecordsDecodeIff(fields: seq<PointField>, pointStep: nat, data: seq<bv8>, host: ByteOrder)
    requires pointStep >= 12
    ensures PointCloud2ToArray(fields, pointStep, data, host).Success? <==>
      && |data| % pointStep == 0
      && IndexOf(Names(fields), "intensity") != Some(pointStep - 1)
  {
    DecodeSucceedsIff(fields, pointStep, data, host);
    WideDecodable(pointStep, |data|, IndexOf(Names(fields), "intensity"));
  }

  /** The xyz column of a successful decode is the float32 view of the first 12 bytes of every record. */
  lemma DecodedXyz(names: seq<string>, rows: seq<seq<bv8>>, pointStep: nat, host: ByteOrder)
    requires DecodeRecords(names, rows, pointStep, host).Success?
    ensures var flat := Flatten(SliceColumns(rows, 0, 12));
      && |flat| % 12 == 0
      && DecodeRecords(names, rows, pointStep, host).value.xyz == ToPoints(flat)
  {
  }

  /** With records of at least 12 bytes, row i of the xyz view is the first 12 bytes of record i. */
  lemma {:induction false} XyzColumnAt(rows: seq<seq<bv8>>, pointStep: nat, i: nat)
    requires pointStep >= 12
    requires forall j :: 0 <= j < |rows| ==> |rows[j]| == pointStep
    requires i < |rows|
    ensures var flat := Flatten(SliceColumns(rows, 0, 12));
      && |flat| == 12 * |rows|
      && |ToPoints(flat)| == |rows|
      && ToPoints(flat)[i] == PointOf(rows[i][..12])
  {
    var cols := SliceColumns(rows, 0, 12);
    SliceColumnsUniform(rows, pointStep, 0, 12);
    FlattenUniformAt(cols, 12, i, 12 * i);
    var flat := Flatten(cols);
    assert ToPoints(flat)[i] == PointOf(flat[12 * i .. 12 * i + 12]);
    assert cols[i] == rows[i][..12];
  }

  /** Record-level form of DecodedXyzAt: row i of xyz is the first 12 bytes of record i. */
  lemma RecordsXyzAt(names: seq<string>, rows: seq<seq<bv8>>, pointStep: nat, host: ByteOrder, i: nat)
    requires pointStep >= 12
    requires forall j :: 0 <= j < |rows| ==> |rows[j]| == pointStep
    requires DecodeRecords(names, rows, pointStep, host).Success?
    requires i < |rows|
    ensures var xyz := DecodeRecords(names, rows, pointStep, host).value.xyz;
      |xyz| == |rows| && xyz[i] == PointOf(rows[i][..12])
  {
    DecodedXyz(names, rows, pointStep, host);
    XyzColumnAt(rows, pointStep, i);
  }

  /** The rgb and intensity columns of a successful decode are the sliced windows at the fields' indices. */
  lemma DecodedColumns(names: seq<string>, rows: seq<seq<bv8>>, pointStep: nat, host: ByteOrder)
    requires DecodeRecords(names, rows, pointStep, host).Success?
    ensures var r := DecodeRecords(names, rows, pointStep, host).value;
      && r.rgb == (if "rgb" in names then Some(RgbColumn(rows, IndexOf(names, "rgb").value)) else None)
      && r.intensity == (if "intensity" in names
                         then Some(IntensityColumn(rows, IndexOf(names, "intensity").value, host)) else None)
  {
  }

  /** Row i of the rgb column: the clamped window at k, reversed. */
  lemma RgbColumnAt(rows: seq<seq<bv8>>, k: nat, i: nat)
    requires i < |rows|
    ensures |RgbColumn(rows, k)| == |rows|
    ensures |RgbColumn(rows, k)[i]| == (Min(k + 3, |rows[i]|) - Min(k, |rows[i]|))
    ensures k + 3 <= |rows[i]| ==> RgbColumn(rows, k)[i] == [rows[i][k + 2], rows[i][k + 1], rows[i][k]]
  {
    assert RgbColumn(rows, k)[i] == Reverse(Slice(rows[i], k, k + 3));
    ReversedWindow(rows[i], k);
  }

  /** Row i of the intensity column: one uint16 when the window fits, none when it is clamped away. */
  lemma IntensityColumnAt(rows: seq<seq<bv8>>, k: nat, host: ByteOrder, i: nat)
    requires i < |rows|
    ensures |IntensityColumn(rows, k, host)| == |rows|
    ensures k + 2 <= |rows[i]| ==> IntensityColumn(rows, k, host)[i] == [LoadUint16(rows[i][k], rows[i][k + 1], host)]
    ensures k >= |rows[i]| ==> IntensityColumn(rows, k, host)[i] == []
  {
    var s := Slice(rows[i], k, k + 2);
    assert IntensityColumn(rows, k, host)[i] == Uint16s(s, host);
    if k + 2 <= |rows[i]| {
      assert s == rows[i][k .. k + 2];
      assert s[2..] == [];
      assert Uint16s(s, host) == [LoadUint16(s[0], s[1], host)] + Uint16s([], host);
    } else if k >= |rows[i]| {
      assert |s| == 0;
    }
  }

  /** Record-level form of DecodedIntensityAt. */
  lemma RecordsIntensityAt(names: seq<string>, rows: seq<seq<bv8>>, pointStep: nat, host: ByteOrder, i: nat)
    requires forall j :: 0 <= j < |rows| ==> |rows[j]| == pointStep
    requires DecodeRecords(names, rows, pointStep, host).Success?
    requires "intensity" in names
    requires i < |rows|
    ensures var intensity := DecodeRecords(names, rows, pointStep, host).value.intensity;
      var k := IndexOf(names, "intensity").value;
      && intensity.Some?
      && |intensity.value| == |rows|
      && (k + 2 <= pointStep ==> intensity.value[i] == [LoadUint16(rows[i][k], rows[i][k + 1], host)])
      && (k >= pointStep ==> intensity.value[i] == [])
  {
    DecodedColumns(names, rows, pointStep, host);
    IntensityColumnAt(rows, IndexOf(names, "intensity").value, host, i);
  }

  /**
   * With records of at least 12 bytes, xyz has one row per record and row i
   * is the three float32 words at bytes 0..11 of record i (record i starts at
   * byte start = i * point_step), whatever offsets the x, y and z fields
   * declare.
   */
  lemma {:induction false} DecodedXyzAt(fields: seq<PointField>, pointStep: nat, data: seq<bv8>, host: ByteOrder, i: nat, start: int)
    requires pointStep >= 12
    requires PointCloud2ToArray(fields, pointStep, data, host).Success?
    requires i < |data| / pointStep
    requires start == i * pointStep
    ensures var xyz := PointCloud2ToArray(fields, pointStep, data, host).value.xyz;
      && |xyz| == |data| / pointStep
      && 0 <= start && start + 12 <= |data|
      && xyz[i] == PointOf(data[start .. start + 12])
  {
    SuccessfulDecodeUnfolds(fields, pointStep, data, host);
    var n := |data| / pointStep;
    var rows := Rows(data, pointStep, n);
    RecordsXyzAt(Names(fields), rows, pointStep, host, i);
    RowsAt(data, pointStep, n, i, start);
    assert rows[i][..12] == data[start .. start + 12];
  }

  /**
   * A successful decode has one xyz row per 12 bytes of the xyz windows: N
   * records give N * min(12, point_step) / 12 rows, which is N only when
   * point_step >= 12.
   */
  lemma DecodedXyzCount(fields: seq<PointField>, pointStep: nat, data: seq<bv8>, host: ByteOrder)
    requires PointCloud2ToArray(fields, pointStep, data, host).Success?
    ensures pointStep > 0
    ensures |PointCloud2ToArray(fields, pointStep, data, host).value.xyz| * 12
      == (|data| / pointStep) * Min(12, pointStep)
  {
    SuccessfulDecodeUnfolds(fields, pointStep, data, host);
    var rows := Rows(data, pointStep, |data| / pointStep);
    DecodedXyz(Names(fields), rows, pointStep, host);
    SliceColumnsUniform(rows, pointStep, 0, 12);
    FlattenUniformLength(SliceColumns(rows, 0, 12), Min(12, pointStep));
  }

  /**
   * With records narrower than 12 bytes (point_step 4 or 8), the xyz window
   * is the whole record, so the xyz column is the float32 view of the whole
   * buffer grouped into triples, and a triple can span records.
   */
  lemma NarrowRecordsXyz(fields: seq<PointField>, pointStep: nat, data: seq<bv8>, host: ByteOrder)
    requires pointStep < 12
    requires PointCloud2ToArray(fields, pointStep, data, host).Success?
    ensures |data| % 12 == 0
    ensures PointCloud2ToArray(fields, pointStep, data, host).value.xyz == ToPoints(data)
  {
    SuccessfulDecodeUnfolds(fields, pointStep, data, host);
    var n := |data| / pointStep;
    var rows := Rows(data, pointStep, n);
    DecodedXyz(Names(fields), rows, pointStep, host);
    var cols := SliceColumns(rows, 0, 12);
    forall i | 0 <= i < n
      ensures cols[i] == rows[i]
    {
      assert rows[i][0 .. |rows[i]|] == rows[i];
    }
    assert cols == rows;
  }

  /**
   * Three records of 8 bytes decode to two xyz rows, and the first of them
   * takes bytes 8..11 from the second record.
   */
  lemma EightByteRecordsSpan(fields: seq<PointField>, data: seq<bv8>, host: ByteOrder)
    requires IndexOf(Names(fields), "intensity") == None
    requires |data| == 24
    ensures var r := PointCloud2ToArray(fields, 8, data, host);
      && r.Success?
      && |r.value.xyz| == 2
      && r.value.xyz[0] == PointOf(data[0 .. 8] + data[8 .. 12])
  {
    DecodeSucceedsIff(fields, 8, data, host);
    NarrowRecordsXyz(fields, 8, data, host);
    assert data[0 .. 8] + data[8 .. 12] == data[0 .. 12];
  }

  /** The rgb value of one record: the window at k clamped to the record, reversed. */
  lemma ReversedWindow(rec: seq<bv8>, k: nat)
    ensures |Reverse(Slice(rec, k, k + 3))| == Min(k + 3, |rec|) - Min(k, |rec|)
    ensures k + 3 <= |rec| ==> Reverse(Slice(rec, k, k + 3)) == [rec[k + 2], rec[k + 1], rec[k]]
  {
    if k + 3 <= |rec| {
      var s := Slice(rec, k, k + 3);
      assert s == rec[k .. k + 3];
      assert Reverse(s) == [s[2], s[1], s[0]];
    }
  }

  /** ReversedWindow for the record at bytes start .. start + len of the buffer. */
  lemma RecordWindow(data: seq<bv8>, start: int, len: nat, k: nat)
    requires 0 <= start && start + len <= |data|
    ensures |Reverse(Slice(data[start .. start + len], k, k + 3))| == Min(k + 3, len) - Min(k, len)
    ensures k + 3 <= len ==>
      Reverse(Slice(data[start .. start + len], k, k + 3)) == [data[start + k + 2], data[start + k + 1], data[start + k]]
  {
    var rec := data[start .. start + len];
    ReversedWindow(rec, k);
    if k + 3 <= len {
      assert rec[k] == data[start + k] && rec[k + 1] == data[start + k + 1] && rec[k + 2] == data[start + k + 2];
    }
  }

  /**
   * When "rgb" is a field name, row i of the rgb column is the window of
   * record i (bytes start .. start + point_step of the buffer) at k, the
   * INDEX of "rgb" in the field list, clamped to the record and reversed.
   */
  lemma DecodedRgbRow(fields: seq<PointField>, pointStep: nat, data: seq<bv8>, host: ByteOrder, i: nat, start: int)
    requires PointCloud2ToArray(fields, pointStep, data, host).Success?
    requires "rgb" in Names(fields)
    requires i < |data| / pointStep
    requires start == i * pointStep
    ensures var r := PointCloud2ToArray(fields, pointStep, data, host).value;
      var k := IndexOf(Names(fields), "rgb").value;
      && r.rgb.Some?
      && |r.rgb.value| == |data| / pointStep
      && 0 <= start && start + pointStep <= |data|
      && r.rgb.value[i] == Reverse(Slice(data[start .. start + pointStep], k, k + 3))
  {
    SuccessfulDecodeUnfolds(fields, pointStep, data, host);
    var n := |data| / pointStep;
    var rows := Rows(data, pointStep, n);
    var k := IndexOf(Names(fields), "rgb").value;
    DecodedColumns(Names(fields), rows, pointStep, host);
    RowsAt(data, pointStep, n, i, start);
    var column := DecodeRecords(Names(fields), rows, pointStep, host).value.rgb.value;
    assert column[i] == Reverse(Slice(rows[i], k, k + 3));
  }

  /**
   * When "rgb" is a field name, the rgb column has one row per record and
   * row i is the window of record i (which starts at byte start) beginning
   * at k, the INDEX of "rgb" in the field list, clamped to the record and
   * reversed, so fewer than three bytes when k + 3 > point_step; when
   * k + 3 <= point_step it is bytes k + 2, k + 1, k of the record.
   */
  lemma {:induction false} DecodedRgbAt(fields: seq<PointField>, pointStep: nat, data: seq<bv8>, host: ByteOrder, i: nat, start: int)
    requires PointCloud2ToArray(fields, pointStep, data, host).Success?
    requires "rgb" in Names(fields)
    requires i < |data| / pointStep
    requires start == i * pointStep
    ensures var r := PointCloud2ToArray(fields, pointStep, data, host).value;
      var k := IndexOf(Names(fields), "rgb").value;
      && r.rgb.Some?
      && |r.rgb.value| == |data| / pointStep
      && |r.rgb.value[i]| == (Min(k + 3, pointStep) - Min(k, pointStep))
      && 0 <= start && start + pointStep <= |data|
      && r.rgb.value[i] == Reverse(Slice(data[start .. start + pointStep], k, k + 3))
      && (k + 3 <= pointStep ==>
            0 <= start && start + k + 3 <= |data| &&
            r.rgb.value[i] == [data[start + k + 2], data[start + k + 1], data[start + k]])
  {
    DecodedRgbRow(fields, pointStep, data, host, i, start);
    RecordWindow(data, start, pointStep, IndexOf(Names(fields), "rgb").value);
  }

  /**
   * When "intensity" is a field name, the intensity column has one row per
   * record and, when the window fits, row i is the single native-endian
   * uint16 at byte k of record i (which starts at byte start), k being the
   * INDEX of "intensity" in the field list; a window clamped to nothing
   * gives an empty row.
   */
  lemma {:induction false} DecodedIntensityAt(fields: seq<PointField>, pointStep: nat, data: seq<bv8>, host: ByteOrder, i: nat, start: int)
    requires PointCloud2ToArray(fields, pointStep, data, host).Success?
    requires "intensity" in Names(fields)
    requires i < |data| / pointStep
    requires start == i * pointStep
    ensures var r := PointCloud2ToArray(fields, pointStep, data, host).value;
      var k := IndexOf(Names(fields), "intensity").value;
      && r.intensity.Some?
      && |r.intensity.value| == |data| / pointStep
      && (k + 2 <= pointStep ==>
            0 <= start && start + k + 2 <= |data| &&
            r.intensity.value[i] == [LoadUint16(data[start + k], data[start + k + 1], host)])
      && (k >= pointStep ==> r.intensity.value[i] == [])
  {
    SuccessfulDecodeUnfolds(fields, pointStep, data, host);
    var n := |data| / pointStep;
    var rows := Rows(data, pointStep, n);
    RecordsIntensityAt(Names(fields), rows, pointStep, host, i);
    var k := IndexOf(Names(fields), "intensity").value;
    var column := DecodeRecords(Names(fields), rows, pointStep, host).value.intensity.value;
    if k + 2 <= pointStep {
      RecordByteAt(data, pointStep, n, i, start, k);
      RecordByteAt(data, pointStep, n, i, start, k + 1);
      assert column[i] == [LoadUint16(rows[i][k], rows[i][k + 1], host)];
    }
  }

  /**
   * An empty buffer decodes to a point set whose every column is empty, and
   * it does so unless point_step itself is rejected: 0, a short xyz window
   * that is not a whole number of float32s, or an odd intensity window.
   */
  lemma EmptyBufferDecodes(fields: seq<PointField>, pointStep: nat, host: ByteOrder)
    ensures var r := PointCloud2ToArray(fields, pointStep, [], host);
      && (r.Success? <==>
            && pointStep > 0
            && Min(12, pointStep) % 4 == 0
            && (var k := IndexOf(Names(fields), "intensity");
                k.None? || (Min(k.value + 2, pointStep) - Min(k.value, pointStep)) % 2 == 0))
      && (r.Success? ==>
            && r.value.xyz == []
            && (r.value.rgb.Some? ==> r.value.rgb.value == [])
            && (r.value.intensity.Some? ==> r.value.intensity.value == []))
  {
    DecodeSucceedsIff(fields, pointStep, [], host);
  }
}
