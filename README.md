# ros2_numpy PointCloud2 codec, modelled in Dafny

This project models the two functions of `ros2_numpy/point_cloud2.py`.

- `point_cloud2_to_array` decodes a `sensor_msgs/PointCloud2` message into a
  dictionary of numpy columns: `xyz`, and `rgb` and `intensity` when present.
- `array_to_point_cloud2` builds such a message from the dictionary.

The files are:

- `layout.dfy` (module `Layout`): the shared vocabulary.
  - Bytes, and float32 values kept as opaque 4-byte words. Only whether a word is a NaN is interpreted.
  - The `PointField` descriptor, the datatype codes and the record-layout invariant.
  - The columnar `PointSet`.
  - `Flatten`, which stands for numpy's `tobytes` of a 2-d array.
  - `IndexOf`, which stands for Python's `in` together with `list.index`.
- `decode.dfy` (module `Decode`): the decoder, as pure functions. `PointCloud2ToArray` models the whole of
  `point_cloud2_to_array` (lines 8-45); `DecodeRecords` is its part after the reshape.
  - `np.frombuffer(...).reshape(-1, point_step)` becomes `Rows`.
  - Column slicing follows numpy: a slice bound past the row is clamped to the row.
  - A `view` to a wider dtype raises unless the slice's byte width is a multiple of the new item size.
  - `reshape(-1, 3)` raises unless the float count is a multiple of 3.
  - Every numpy `ValueError` becomes a `Failure`.
- `encode.dfy` (module `Encode`): the encoder, as imperative code.
  - The message is a `PointCloud2` class whose fields the method sets one by one.
  - `FillLayout` writes the metadata (lines 57-82). `ArrayToPointCloud2` builds the data buffer.
  - The buffer is specified by the pure function `EncodedData`, which models lines 89-112: the `TypeError`
    of the intensity branches, the `np.hstack` of the rgb-only branch and the plain xyz bytes otherwise.
- `quirks.dfy` (module `Interplay`): what the decoder makes of the messages the encoder builds.

The host's byte order (`sys.byteorder`, numpy's native order) is a parameter, `host`.

The model keeps these behaviours of the code, which a tidy codec would not have:

- The decoder reads the `rgb` and `intensity` windows at the field's position in the field list, not at its declared `offset`.
- The decoder does not look up `x`, `y` or `z`. It reads bytes 0..min(12, point_step) of every record as
  float32 words and groups those words into triples, and a field list without x, y or z decodes the same way.
- With point_step 4 or 8 the xyz window is the whole record, so a triple spans records and the xyz column
  has N * point_step / 12 rows for N records, not N. The rgb and intensity columns still have N rows.
- The decoder ignores `is_bigendian`. `intensity` is read in the host's byte order.
- The encoder declares `intensity` at offset 16 even when no `rgb` field precedes it, in a 14-byte record.
- For an xyz-only cloud the encoder leaves `point_step` at its default of 0.
- The encoder writes the data column after column (all xyz bytes, then all rgb bytes), not record by record.
- The encoder widens every rgb component to 4 bytes (`astype(np.uint32)`), so 12 bytes per row.
- Both encoder branches with an intensity column call `np.hstack` with several positional arguments. That raises `TypeError`, so those messages are never produced.
- An rgb-only cloud with no rows yields two zero bytes, not an empty buffer, because numpy never makes a zero-width byte string.
- An empty buffer decodes only when `point_step` itself is accepted: not 0, an xyz window that is a whole number of float32 words, and an even intensity window.

## Model

| member | source | states |
|---|---|---|
| Layout.IndexOf | ros2_numpy/point_cloud2.py:10-19 | None exactly when the name is not a field name; otherwise an index holding the name with no earlier occurrence |
| Layout.PointOf | ros2_numpy/point_cloud2.py:27 | 12 bytes viewed as three float32 words give back exactly those bytes |
| Layout.FlattenUniformAt | ros2_numpy/point_cloud2.py:102 | in the bytes of rows of width c, row i is exactly the c bytes at c*i; the total length is c times the row count |
| Decode.Rows | ros2_numpy/point_cloud2.py:25-26 | reshape(-1, point_step): n rows of exactly point_step bytes that concatenate back to the data |
| Decode.RowsAt | ros2_numpy/point_cloud2.py:25-26 | record i of the reshaped buffer is bytes i*point_step .. (i+1)*point_step of the data |
| Decode.DecodeRecords | ros2_numpy/point_cloud2.py:27-45 | on success, key "rgb" is present iff "rgb" is a field name, and likewise for "intensity" |
| Decode.DecodeSucceedsIff | ros2_numpy/point_cloud2.py:25-32 | decoding succeeds iff point_step is non-zero and divides the buffer, the clamped xyz window is a whole number of float32s, those floats fill whole triples, and the clamped intensity window (if any) has even width |
| Decode.RecordsSucceedIff | ros2_numpy/point_cloud2.py:27-32 | after the reshape, the views and the xyz reshape succeed iff the xyz window is a multiple of 4 bytes, the float count a multiple of 3, and the intensity window even |
| Decode.WideRecordsDecodeIff | ros2_numpy/point_cloud2.py:25-32 | with point_step >= 12, decoding fails only on a ragged buffer or an intensity field at index point_step - 1 |
| Decode.DecodedKeys | ros2_numpy/point_cloud2.py:35-45 | the dictionary's keys are xyz, plus rgb and intensity exactly when those names are fields |
| Decode.XyzColumnAt | ros2_numpy/point_cloud2.py:27 | with records of at least 12 bytes, the xyz view has one row per record and row i is the first 12 bytes of record i |
| Decode.DecodedXyzAt | ros2_numpy/point_cloud2.py:27 | with point_step >= 12, xyz has one row per record, and row i is the three float32 words at bytes i*point_step .. +12 of the buffer, whatever the x/y/z offsets say |
| Decode.DecodedXyzCount | ros2_numpy/point_cloud2.py:25-27 | a successful decode of N records has N * min(12, point_step) / 12 xyz rows, so N rows only when point_step >= 12 |
| Decode.NarrowRecordsXyz | ros2_numpy/point_cloud2.py:25-27 | with point_step below 12, a successful decode's xyz column is the float32 view of the whole buffer grouped into triples, across record boundaries |
| Decode.EightByteRecordsSpan | ros2_numpy/point_cloud2.py:25-27 | with no intensity field, 24 bytes at point_step 8 decode to 2 xyz rows, the first taking bytes 8..11 from the second record |
| Decode.RgbColumnAt | ros2_numpy/point_cloud2.py:29 | row i of the rgb column has the width of the clamped window at k; when the window fits, it is the three bytes at k in reverse order |
| Decode.DecodedRgbAt | ros2_numpy/point_cloud2.py:29 | rgb has one row per record; row i is the clamped, reversed window at k of record i, whose width is min(k+3, point_step) - min(k, point_step); when it fits it is bytes k+2, k+1, k of record i, k being the INDEX of "rgb" in the field list |
| Decode.IntensityColumnAt | ros2_numpy/point_cloud2.py:31-32 | row i of the intensity column is one native-endian uint16 when the window fits, and empty when it is clamped away |
| Decode.DecodedIntensityAt | ros2_numpy/point_cloud2.py:31-32 | intensity has one row per record; row i is the native-endian uint16 at byte k of record i, k being the INDEX of "intensity" in the field list; it is empty when k >= point_step |
| Decode.EmptyBufferDecodes | ros2_numpy/point_cloud2.py:25-32 | an empty buffer decodes iff point_step is accepted (non-zero, xyz window a multiple of 4, even intensity window), and then every column is empty |
| Encode.PointCloud2.constructor | ros2_numpy/point_cloud2.py:54 | a new message has every field at its default: zero sizes, no fields, no data |
| Encode.AnyNaNIff | ros2_numpy/point_cloud2.py:72 | the NaN scan is true exactly when some coordinate of some xyz row is an IEEE binary32 NaN |
| Encode.FillLayout | ros2_numpy/point_cloud2.py:57-82 | sets height 1, width N, the x/y/z[/rgb][/intensity] field list, the byte-order flag, is_dense = no NaN, point_step 18/16/14 (unchanged for xyz-only) and row_step = point_step * width; the data is untouched |
| Encode.ArrayToPointCloud2 | ros2_numpy/point_cloud2.py:48-114 | fails with TypeError exactly when an intensity column is present; otherwise returns a fresh message with that metadata, point_step 0 for xyz-only, and the encoded data |
| Encode.Hstack2 | ros2_numpy/point_cloud2.py:94-95 | np.hstack of two byte strings: both padded with zero bytes to the longer length (at least 1), then concatenated |
| Encode.XyzBytesAt | ros2_numpy/point_cloud2.py:102 | the xyz bytes hold 12 bytes per row, and row i is at bytes 12*i .. 12*i+12 |
| Encode.RgbRowBytesAt | ros2_numpy/point_cloud2.py:95 | a three-component rgb row becomes 12 bytes, with component j widened to a native uint32 at bytes 4*j .. 4*j+4 |
| Encode.RgbBytesAt | ros2_numpy/point_cloud2.py:95 | with three components per rgb row, the rgb bytes hold 12 bytes per row; component j of row i is the widened uint32 at 12*i + 4*j |
| Encode.EncodedFieldsShape | ros2_numpy/point_cloud2.py:59-69 | the field list starts x, y, z at offsets 0/4/8 as float32; it names rgb iff the rgb key is present (offset 12, uint32), and intensity iff the intensity key is present (always offset 16, uint16) |
| Encode.EncodedLayoutWellFormedIff | ros2_numpy/point_cloud2.py:59-80 | the encoder's layout keeps every field inside point_step, with no overlaps, exactly when the rgb key is present |
| Encode.EncodedXyzOnly | ros2_numpy/point_cloud2.py:101-112 | xyz-only data is the float32 bytes, 12 per row in row order |
| Encode.RgbOnlyConcatenates | ros2_numpy/point_cloud2.py:93-95 | with rows and one three-component rgb row per xyz row, hstack of the xyz and rgb bytes is their plain concatenation, each 12 bytes per row |
| Encode.EncodedRgbOnly | ros2_numpy/point_cloud2.py:93-112 | with one three-component rgb row per xyz row, rgb-only data is all xyz bytes followed by all rgb bytes, 24 bytes per row; with no rows it is two zero bytes |
| Encode.ConcatenatedRgbAt | ros2_numpy/point_cloud2.py:93-95 | in that buffer, component j of row i is the widened uint32 at byte 12*N + 12*i + 4*j |
| Encode.RowStepDisagreesWithData | ros2_numpy/point_cloud2.py:75-82 | for every message the encoder returns with rows, whatever the shape of its rgb column, row_step * height differs from the data length |
| Interplay.ToPointsXyzBytes | ros2_numpy/point_cloud2.py:27 | the decoder's float32 view of the encoder's xyz bytes gives back the xyz rows |
| Interplay.EncodedFieldIndices | ros2_numpy/point_cloud2.py:10-19 | in the encoder's field list, the decoder finds rgb at index 3 and intensity at index 3 or 4, not at the declared offsets 12 and 16 |
| Interplay.XyzOnlyMessageNotDecodable | ros2_numpy/point_cloud2.py:25-26 | an encoded xyz-only message fails to decode: its point_step is 0 |
| Interplay.DecodeRgbOnlyLayoutCount | ros2_numpy/point_cloud2.py:25-27 | with no field named "intensity", a 24-bytes-per-row buffer with point_step 16 decodes iff the row count N is even (N = 0 included), and then to 3N/2 xyz rows |
| Interplay.DecodeRgbOnlyLayoutFirstRow | ros2_numpy/point_cloud2.py:27-29 | with rgb at index 3 of the field list, as in the encoder's rgb-only list, a successful decode of at least 16 bytes at point_step 16 has bytes 0..11 as its first xyz row and bytes 5, 4, 3 as its first rgb row |
| Interplay.RgbOnlyMessageMisdecodes | ros2_numpy/point_cloud2.py:93-95 | an encoded rgb-only message with N > 0 rows and one three-component rgb row per xyz row decodes iff N is even, to 3N/2 rows; the first rgb row is the last byte of x and the first two bytes of y |

## Left out

- The header (`frame_id` and the time stamp, lines 55-56) is not modelled. It is envelope plumbing, and reading the clock is I/O. The model assumes both assignments succeed. The message class belongs to sensor_msgs, which is not part of this model. If its setter insists on a `builtin_interfaces/Time` stamp, the float from `time.time()` at line 56 would raise before any data is built.
- Float values are opaque 4-byte words. Only NaN-ness is interpreted, by IEEE 754 binary32 bit pattern. Float conversions (`astype(np.float32)` from float64) are not modelled; the xyz column is taken as float32 already.
- `astype(np.uint32)` of the rgb column is modelled for uint8 components only. Wider or signed input dtypes are not modelled.
- The host byte order is a parameter, not read from the platform.
- numpy's memory management is not modelled. The `memoryview`/`cast("B")`/`array.array` chain (lines 101-112) only copies bytes, so it is modelled as sequence copies.
- Older numpy versions also refuse a `view` of a non-contiguous slice. That extra failure is not modelled; the model follows the rule of current numpy, which checks only the byte width.
- A dictionary without the `xyz` key makes the encoder raise `KeyError` (lines 58 and 72). The model's `PointSet` always has `xyz`, so that error path is not represented.
- Keys other than `xyz`, `rgb` and `intensity` are ignored by the encoder and are not represented.
- The contents of the intensity column are never encoded, because the encoder raises first. The model keeps them in `PointSet` without giving them bytes.
- The message setters' uint32 range checks on `width`, `point_step` and `row_step` are not modelled; the model declares them `nat`. An rgb-only cloud with at least 2^28 rows would make `row_step = 16 * width` (line 82) raise.
- `Encode.ArrayToPointCloud2`: does not say where the failed call leaves its partly built message, because Python discards it with the exception.
- The package files `setup.py` and `ros2_numpy/__init__.py` are not part of this model. They hold only packaging and re-exports.
