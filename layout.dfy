/**
 * Shared vocabulary of the PointCloud2 codec: bytes, opaque float32 words,
 * the field descriptors of a sensor_msgs/PointCloud2 message, the columnar
 * point set (the dictionary of numpy columns) and small sequence helpers.
 */
module Layout {

  datatype Option<+T> = None | Some(value: T)

  datatype Result<+T, +E> = Success(value: T) | Failure(error: E)

  /** The host's native byte order (Python's sys.byteorder). */
  datatype ByteOrder = Little | Big

  newtype uint16 = x: int | 0 <= x < 0x1_0000

  /**
   * A float32 as the four bytes it occupies in memory, in memory order.
   * Its numeric value is not interpreted; only NaN-ness is (see IsNaN).
   */
  datatype Float32 = Float32(b0: bv8, b1: bv8, b2: bv8, b3: bv8)

  /** One row of the xyz column: three float32 words. */
  datatype Point = Point(x: Float32, y: Float32, z: Float32)

  function Float32Bytes(f: Float32): seq<bv8> {
    [f.b0, f.b1, f.b2, f.b3]
  }

  /** The 12 bytes of a point as numpy lays out a float32 row (x, y, z). */
  function PointBytes(p: Point): (r: seq<bv8>)
    ensures |r| == 12
  {
    Float32Bytes(p.x) + Float32Bytes(p.y) + Float32Bytes(p.z)
  }

  /** Reinterprets 12 bytes as one float32 row, the inverse of PointBytes. */
  function PointOf(b: seq<bv8>): (p: Point)
    requires |b| == 12
    ensures PointBytes(p) == b
  {
    Point(Float32(b[0], b[1], b[2], b[3]),
          Float32(b[4], b[5], b[6], b[7]),
          Float32(b[8], b[9], b[10], b[11]))
  }

  /** The bit pattern of a float32 word read in the host's byte order. */
  function Bits(f: Float32, host: ByteOrder): bv32 {
    match host
    case Little => (f.b3 as bv32 << 24) | (f.b2 as bv32 << 16) | (f.b1 as bv32 << 8) | f.b0 as bv32
    case Big => (f.b0 as bv32 << 24) | (f.b1 as bv32 << 16) | (f.b2 as bv32 << 8) | f.b3 as bv32
  }

  /** IEEE 754 binary32 NaN: all exponent bits set and a non-zero fraction. */
  predicate IsNaN(f: Float32, host: ByteOrder) {
    var bits := Bits(f, host);
    (bits >> 23) & 0xFF == 0xFF && bits & 0x7F_FFFF != 0
  }

  predicate PointHasNaN(p: Point, host: ByteOrder) {
    IsNaN(p.x, host) || IsNaN(p.y, host) || IsNaN(p.z, host)
  }

  /** Two bytes in memory order read as one native-endian uint16 (numpy's view). */
  function LoadUint16(first: bv8, second: bv8, host: ByteOrder): uint16 {
    match host
    case Little => (first as int + 256 * second as int) as uint16
    case Big => (256 * first as int + second as int) as uint16
  }

  /** A uint8 widened to a native-endian uint32 (numpy's astype(np.uint32)), as memory bytes. */
  function Widen32(c: bv8, host: ByteOrder): (r: seq<bv8>)
    ensures |r| == 4
  {
    match host
    case Little => [c, 0, 0, 0]
    case Big => [0, 0, 0, c]
  }

  // sensor_msgs/PointField datatype codes
  const INT8: nat := 1
  const UINT8: nat := 2
  const INT16: nat := 3
  const UINT16: nat := 4
  const INT32: nat := 5
  const UINT32: nat := 6
  const FLOAT32: nat := 7
  const FLOAT64: nat := 8

  /** A sensor_msgs/PointField: a named channel inside every record. */
  datatype PointField = PointField(name: string, offset: nat, dataType: nat, count: nat)

  /** Bytes per element of a PointField datatype code (0 for an unknown code). */
  function SizeOf(dataType: nat): nat {
    if dataType == INT8 || dataType == UINT8 then 1
    else if dataType == INT16 || dataType == UINT16 then 2
    else if dataType == INT32 || dataType == UINT32 || dataType == FLOAT32 then 4
    else if dataType == FLOAT64 then 8
    else 0
  }

  /** The bytes a field occupies in one record. */
  function Extent(f: PointField): nat {
    SizeOf(f.dataType) * f.count
  }

  /** The record layout invariant: every field lies inside the record and no two overlap. */
  ghost predicate WellFormedLayout(fields: seq<PointField>, pointStep: nat) {
    && (forall i :: 0 <= i < |fields| ==> fields[i].offset + Extent(fields[i]) <= pointStep)
    && (forall i, j :: 0 <= i < j < |fields| ==>
          fields[i].offset + Extent(fields[i]) <= fields[j].offset ||
          fields[j].offset + Extent(fields[j]) <= fields[i].offset)
  }

  /** The names of the fields, in order (the list comprehension over msg.fields). */
  function Names(fields: seq<PointField>): seq<string> {
    seq(|fields|, i requires 0 <= i < |fields| => fields[i].name)
  }

  /**
   * The position of the first occurrence of name in names (Python's
   * `name in names` together with `names.index(name)`).
   */
  function IndexOf(names: seq<string>, name: string): (r: Option<nat>)
    ensures r.None? <==> name !in names
    ensures r.Some? ==> r.value < |names| && names[r.value] == name
    ensures r.Some? ==> forall j :: 0 <= j < r.value ==> names[j] != name
  {
    if |names| == 0 then None
    else if names[0] == name then Some(0)
    else
      match IndexOf(names[1..], name)
      case None => None
      case Some(j) => Some(j + 1)
  }

  /**
   * The columnar point set: the dictionary with key "xyz" and, when present,
   * "rgb" and "intensity". An absent key is None.
   */
  datatype PointSet = PointSet(
    xyz: seq<Point>,
    rgb: Option<seq<seq<bv8>>>,
    intensity: Option<seq<seq<uint16>>>)

  /** The key set of the dictionary a point set stands for. */
  function Keys(p: PointSet): set<string> {
    {"xyz"}
    + (if p.rgb.Some? then {"rgb"} else {})
    + (if p.intensity.Some? then {"intensity"} else {})
  }

  function Min(a: int, b: int): int {
    if a <= b then a else b
  }

  function Max(a: int, b: int): int {
    if a <= b then b else a
  }

  /** A slice of a slice is a slice of the original sequence. */
  lemma SliceOfSlice<T>(s: seq<T>, lo: int, hi: int, c: int, d: int)
    requires 0 <= lo <= hi <= |s|
    requires 0 <= c <= d <= hi - lo
    ensures s[lo .. hi][c .. d] == s[lo + c .. lo + d]
  {
    var inner := s[lo .. hi];
    forall k | 0 <= k < d - c
      ensures inner[c .. d][k] == s[lo + c .. lo + d][k]
    {
      assert inner[c .. d][k] == inner[c + k];
    }
  }

  /** Concatenation of a sequence of sequences (numpy's tobytes of a 2-d array). */
  function Flatten<T>(rows: seq<seq<T>>): seq<T> {
    if |rows| == 0 then [] else rows[0] + Flatten(rows[1..])
  }

  lemma {:induction false} FlattenUniformLength<T>(rows: seq<seq<T>>, c: nat)
    requires forall i :: 0 <= i < |rows| ==> |rows[i]| == c
    ensures |Flatten(rows)| == c * |rows|
  {
    if |rows| > 0 {
      FlattenUniformLength(rows[1..], c);
    }
  }

  /** In the concatenation of rows of width c, row i occupies bytes start .. start + c, where start = c*i. */
  lemma {:induction false} FlattenUniformAt<T>(rows: seq<seq<T>>, c: nat, i: nat, start: int)
    requires forall k :: 0 <= k < |rows| ==> |rows[k]| == c
    requires i < |rows|
    requires start == c * i
    ensures |Flatten(rows)| == c * |rows|
    ensures 0 <= start && start + c <= |Flatten(rows)|
    ensures Flatten(rows)[start .. start + c] == rows[i]
  {
    FlattenUniformLength(rows, c);
    var tail := Flatten(rows[1..]);
    assert Flatten(rows) == rows[0] + tail;
    if i == 0 {
      assert start == 0;
    } else {
      assert start - c == c * (i - 1);
      FlattenUniformAt(rows[1..], c, i - 1, start - c);
      assert Flatten(rows)[start .. start + c] == tail[start - c .. start];
    }
  }
}
