/**
 * What point_cloud2_to_array makes of the messages array_to_point_cloud2
 * builds. The two functions do not invert each other: the decoder finds
 * rgb and intensity by their position in the field list while the encoder
 * gives them offsets 12 and 16, the xyz-only encoding leaves point_step at 0,
 * and the rgb-only encoding stores whole columns rather than records.
 */
module Interplay {
  import opened Layout
  import opened Decode
  import opened Encode

  /** The float32 view of the xyz bytes gives back the xyz rows (view inverts tobytes). */
  lemma {:induction false} ToPointsXyzBytes(xyz: seq<Point>)
    ensures |XyzBytes(xyz)| % 12 == 0
    ensures ToPoints(XyzBytes(xyz)) == xyz
  {
    XyzBytesLength(xyz);
    var back := ToPoints(XyzBytes(xyz));
    forall i | 0 <= i < |xyz| ensures back[i] == xyz[i] {
      XyzBytesAt(xyz, i);
      assert PointBytes(back[i]) == PointBytes(xyz[i]);
    }
  }

  /**
   * In the encoder's field list the decoder finds "rgb" at index 3 and
   * "intensity" at index 3 or 4, whereas the fields declare offsets 12 and 16.
   */
  lemma EncodedFieldIndices(hasRgb: bool, hasIntensity: bool)
    ensures var names := Names(EncodedFields(hasRgb, hasIntensity));
      && IndexOf(names, "rgb") == (if hasRgb then Some(3) else None)
      && IndexOf(names, "intensity") == (if hasIntensity then Some(if hasRgb then 4 else 3) else None)
  {
    var fs := EncodedFields(hasRgb, hasIntensity);
    var names := Names(fs);
    EncodedFieldsShape(hasRgb, hasIntensity);
    assert names[0] == "x" && names[1] == "y" && names[2] == "z";
    if hasRgb {
      assert names[3] == "rgb";
    }
    if hasIntensity {
      assert names[|fs| - 1] == "intensity";
      if hasRgb {
        assert names[3] == "rgb";
      }
    }
  }

  /** An xyz-only message as encoded cannot be decoded: its point_step is 0. */
  lemma XyzOnlyMessageNotDecodable(xyz: seq<Point>, host: ByteOrder)
    ensures var cloud := PointSet(xyz, None, None);
      && EncodedData(cloud, host).Success?
      && PointCloud2ToArray(EncodedFields(false, false), EncodedPointStep(false, false, 0),
                            EncodedData(cloud, host).value, host) == Failure(ReshapeError)
  {
  }

  /** 24 bytes per row make whole 16-byte records exactly for an even row count, 3 records per 2 rows. */
  lemma TwentyFourPerRow(n: nat)
    ensures (24 * n) % 16 == 0 <==> n % 2 == 0
    ensures n % 2 == 0 ==> (24 * n) / 16 == 3 * n / 2
  {
    var m := n / 2;
    if n % 2 == 0 {
      assert 24 * n == 16 * (3 * m);
      assert 3 * n == 2 * (3 * m);
    } else {
      assert 24 * n == 16 * (3 * m + 1) + 8;
    }
  }

  /**
   * The decoder on a buffer of 24 bytes per row, with point_step 16 and a
   * field list without "intensity" (such as the encoder's rgb-only list),
   * succeeds only for an even row count, and then reads 3N/2 records of
   * 16 bytes.
   */
  lemma {:induction false} DecodeRgbOnlyLayoutCount(fields: seq<PointField>, data: seq<bv8>, n: nat, host: ByteOrder)
    requires IndexOf(Names(fields), "intensity") == None
    requires |data| == 24 * n
    ensures var r := PointCloud2ToArray(fields, 16, data, host);
      && (r.Success? <==> n % 2 == 0)
      && (r.Success? ==> |r.value.xyz| == 3 * n / 2)
  {
    WideRecordsDecodeIff(fields, 16, data, host);
    TwentyFourPerRow(n);
    if n == 0 {
      EmptyBufferDecodes(fields, 16, host);
    } else if n % 2 == 0 {
      assert 0 < |data| / 16;
      DecodedXyzAt(fields, 16, data, host, 0, 0);
    }
  }

  /**
   * When that decode succeeds, its first xyz row is bytes 0..11 of the
   * buffer and its first rgb row is bytes 3..5, reversed.
   */
  lemma {:induction false} DecodeRgbOnlyLayoutFirstRow(fields: seq<PointField>, data: seq<bv8>, host: ByteOrder)
    requires IndexOf(Names(fields), "rgb") == Some(3)
    requires |data| >= 16
    requires PointCloud2ToArray(fields, 16, data, host).Success?
    ensures var r := PointCloud2ToArray(fields, 16, data, host).value;
      && |r.xyz| > 0 && r.xyz[0] == PointOf(data[..12])
      && r.rgb.Some? && |r.rgb.value| > 0
      && r.rgb.value[0] == [data[5], data[4], data[3]]
  {
    assert 0 < |data| / 16;
    DecodedXyzAt(fields, 16, data, host, 0, 0);
    DecodedRgbAt(fields, 16, data, host, 0, 0);
    assert data[0 .. 12] == data[..12];
  }

  /**
   * An rgb-only message with N > 0 rows, as encoded, decodes only when N is
   * even, and then to 3N/2 xyz rows instead of N. Its first xyz row
   * survives, but its first rgb row is read from bytes 3..5 of the first
   * record, which hold the last byte of x and the first two bytes of y.
   */
  lemma {:induction false} RgbOnlyMessageMisdecodes(xyz: seq<Point>, rgb: seq<seq<bv8>>, host: ByteOrder)
    requires |xyz| > 0 && |rgb| == |xyz|
    requires forall k :: 0 <= k < |rgb| ==> |rgb[k]| == 3
    ensures var cloud := PointSet(xyz, Some(rgb), None);
      && EncodedData(cloud, host).Success?
      && var r := PointCloud2ToArray(EncodedFields(true, false), EncodedPointStep(true, false, 0),
                                     EncodedData(cloud, host).value, host);
      && (r.Success? <==> |xyz| % 2 == 0)
      && (r.Success? ==>
            && |r.value.xyz| == 3 * |xyz| / 2
            && r.value.xyz[0] == xyz[0]
            && r.value.rgb.Some? && |r.value.rgb.value| > 0
            && r.value.rgb.value[0] == [xyz[0].y.b1, xyz[0].y.b0, xyz[0].x.b3])
  {
    var cloud := PointSet(xyz, Some(rgb), None);
    EncodedRgbOnly(cloud, host);
    var data := EncodedData(cloud, host).value;
    XyzBytesAt(xyz, 0);
    assert data[..12] == PointBytes(xyz[0]);
    EncodedFieldIndices(true, false);
    DecodeRgbOnlyLayoutCount(EncodedFields(true, false), data, |xyz|, host);
    if |xyz| % 2 == 0 {
      DecodeRgbOnlyLayoutFirstRow(EncodedFields(true, false), data, host);
    }
  }
}
