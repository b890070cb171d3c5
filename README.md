# TriggerBot core, modelled and verified in Dafny

This project models the computational core of TriggerBot, a Windows screen-change trigger, in Dafny 4.11.

- **Screen-change detection** in `DesktopDuplicator`:
  - the per-pixel comparison of a fresh capture against a reference frame;
  - the reference-frame flag;
  - the centred scan rectangle and its copy out of the mapped BGRA surface;
  - the Windows BMP encoding of a frame: 24 bits per pixel, rows stored top-down through a negative height;
  - the numbered snapshot file names.
- **The `key=value` configuration file**: `load`, `get`, `set`, `save`, `createDefault`.
- **The fixed key-name/virtual-key-code table** and its two lookup maps.
- **The move-only COM handle `ComResource<T>`**, with the COM object reduced to a count of its `Release` calls.

Direct3D/DXGI calls, the wall clock and the file system are inputs to the model:

- `Acquisition` and `InitOutcome` stand for what the GPU calls produced;
- `Clock` stands for the time the file name is built from;
- `Disk` and `FileStore` stand for which files can be opened and what they contain.

The files written are recorded as byte sequences and text, so what `saveFrameToBMP` and `save` write is stated exactly.

| file | module | what it models |
|---|---|---|
| pixels.dfy | `Pixels` | the `Color` struct, channel selection, absolute channel difference |
| change_detection.dfy | `ChangeDetection` | the comparison loop of `checkForChanges`, as specification functions and as a loop |
| region.dfy | `Region` | the scan-rectangle clamp and the pixel copy of `captureFrame` |
| bitmap.dfy | `Bitmap` | the headers and rows `saveFrameToBMP` writes, filled byte by byte into arrays, and a decoder for the round trip |
| snapshot_names.dfy | `SnapshotNames` | `generateTimestampedFilename` and the companion `.txt` name |
| desktop_duplicator.dfy | `DesktopDuplication` | the `DesktopDuplicator` object: its fields and its methods |
| config.dfy | `Configuration` | the line parser, the serialiser, the `Config` object |
| keycode_mapper.dfy | `KeyCodes` | the 69-row table, the constructor loop, the three lookups |
| com_resource.dfy | `ComResources` | `ComResource<T>` over an abstract COM object |
| arithmetic.dfy, wrappers.dfy | `Arithmetic`, `Wrappers` | products and offsets of non-negative integers; `Option` |

## Where the model follows the code rather than its description

- **Threshold.** The byte threshold is `static_cast<int>(changeSensitivity * 0.01 * 255)`, which truncates toward zero. For example, sensitivity 1.0 gives 2, not 3. `ThresholdTruncates` states this.
- **Oversized scan area.** An area larger than the screen is not clamped to 0. Line 313 of src/graphics/desktop_duplicator.cpp moves the origin to `screen - area`, which is negative (`OversizedAreaStartsBeforeScreen`). The capture methods therefore require the area to fit the screen.
- **Reason file location.** The trigger-reason `.txt` file is opened by its bare name, so it is written to the working directory, not to "screenshots". The model keeps the two sets of files apart.
- **Reference capture with a failed release.** `captureFrame` fills the caller's vector before it calls `ReleaseFrame`. When that release fails, `captureReferenceFrame` reports failure and leaves the flag as it was, but the reference frame has already been overwritten. `CaptureReferenceFrame` states exactly this.

## Model

| member | source | states |
|---|---|---|
| ChangeDetection.ChangedCount | src/graphics/desktop_duplicator.cpp:144-167 | the changed-pixel count over the first n pixels is at most n |
| ChangeDetection.ChangedCountIsCardinality | src/graphics/desktop_duplicator.cpp:164-166 | the count equals the number of positions where some channel difference strictly exceeds the threshold (an OR over the three channels) |
| ChangeDetection.CompareFrames | src/graphics/desktop_duplicator.cpp:134-167 | the comparison loop yields the changed count, the three channel maxima and the last index that raised a maximum, each equal to its specification function |
| ChangeDetection.IdenticalFramesNeverTrigger | src/graphics/desktop_duplicator.cpp:144-176 | a frame compared with itself has no changed pixels and never triggers when the pixel threshold is at least 1 |
| ChangeDetection.ChangedCountAntitone | src/graphics/desktop_duplicator.cpp:164 | a larger byte threshold never increases the changed count |
| ChangeDetection.MaxDiffIsMaximum | src/graphics/desktop_duplicator.cpp:150-161 | each channel maximum is at least that channel's difference at every index, and is 0 or attained at some index |
| ChangeDetection.NoRaiseIffIdentical | src/graphics/desktop_duplicator.cpp:141-161 | the sample index stays -1 exactly when every pixel of both frames is equal |
| ChangeDetection.LastRaiseInRange | src/graphics/desktop_duplicator.cpp:141-161 | the sample index is -1 or a valid index |
| ChangeDetection.LastRaiseIsLastIncrease | src/graphics/desktop_duplicator.cpp:150-161 | when set, the sample index raised some channel maximum, and no later index raised any |
| ChangeDetection.TruncateMonotone | src/graphics/desktop_duplicator.cpp:140 | truncation toward zero is monotone |
| ChangeDetection.SensitivityMonotone | src/graphics/desktop_duplicator.cpp:140-164 | a higher sensitivity gives a threshold no lower and a changed count no higher |
| ChangeDetection.ThresholdTruncates | src/graphics/desktop_duplicator.cpp:140 | sensitivity 1.0 gives threshold 2 and 40.0 gives 102, and a negative product truncates toward zero (-1.0 gives -2) |
| Region.ScanOriginInside | src/graphics/desktop_duplicator.cpp:303-314 | for an area no larger than the screen, the origin is the centred one and the rectangle lies inside the screen |
| Region.OversizedAreaStartsBeforeScreen | src/graphics/desktop_duplicator.cpp:311-313 | for an area larger than the screen, the origin is `screen - area`, which is negative |
| Region.OffsetInside | src/graphics/desktop_duplicator.cpp:330-336 | the source offset `y * RowPitch + x * 4` and its next three bytes lie inside the mapped buffer |
| Region.RegionLength | src/graphics/desktop_duplicator.cpp:321 | the extracted frame has w*h pixels |
| Region.RegionPixelAt | src/graphics/desktop_duplicator.cpp:327-339 | pixel y*w+x of the frame has blue, green and red from offsets +0, +1 and +2 of `(top+y) * RowPitch + (left+x) * 4` |
| Region.ScanFrame | src/graphics/desktop_duplicator.cpp:303-341 | the frame of the centred rectangle has w*h pixels |
| Region.CopyRow | src/graphics/desktop_duplicator.cpp:328-340 | the inner loop appends one row of the rectangle at `pixelIndex` and leaves the earlier pixels as they were |
| Region.CopyRows | src/graphics/desktop_duplicator.cpp:324-341 | the nested loops fill the w*h buffer with the rectangle in row-major order |
| Region.ExtractRegion | src/graphics/desktop_duplicator.cpp:303-341 | the clamped origin lies inside the screen and the filled buffer equals the centred frame |
| Bitmap.RoundUp4Bounds | src/graphics/desktop_duplicator.cpp:381 | `(n + 3) & ~3` is a multiple of 4 between n and n+3 |
| Bitmap.RowSizeBounds | src/graphics/desktop_duplicator.cpp:381 | the row size is a multiple of 4 with 3w <= rowSize <= 3w+3 |
| Bitmap.LittleEndian32Bytes | src/graphics/desktop_duplicator.cpp:399-408 | the four bytes stored are `v & 0xFF`, `(v >> 8) & 0xFF`, `(v >> 16) & 0xFF` and `(v >> 24) & 0xFF`, for negative v too |
| Bitmap.ReadLittleEndian32 | src/graphics/desktop_duplicator.cpp:437-442 | reading the four bytes back as a signed 32-bit integer gives the stored value, including the negative height |
| Bitmap.FileHeaderFields | src/graphics/desktop_duplicator.cpp:391-408 | the file header holds the file size at bytes 2-5, zero reserved bytes and the pixel-data offset at bytes 10-13 |
| Bitmap.InfoHeaderFields | src/graphics/desktop_duplicator.cpp:410-448 | the info header holds 40, the width, the negated height, 1 plane, 24 bits per pixel and compression 0 |
| Bitmap.HeaderFields | src/graphics/desktop_duplicator.cpp:390-454 | any byte string that starts with the two headers begins with 'B','M' and has every header field at its offset |
| Bitmap.BmpHeaderFields | src/graphics/desktop_duplicator.cpp:382-454 | the written file has length 54 + rowSize*h and its header fields hold the file size, 54, 40, w, -h, 1 and 24 |
| Bitmap.BmpFileLength | src/graphics/desktop_duplicator.cpp:382-385 | the file has exactly `FileSize` bytes |
| Bitmap.BmpFileParts | src/graphics/desktop_duplicator.cpp:450-473 | the file is the two headers followed by the pixel rows |
| Bitmap.PixelDataLength | src/graphics/desktop_duplicator.cpp:458-473 | the body has h rows of rowSize bytes |
| Bitmap.PixelDataAt | src/graphics/desktop_duplicator.cpp:460-473 | byte i of row y of the body is byte i of that row |
| Bitmap.PixelRowAt | src/graphics/desktop_duplicator.cpp:462-469 | row y stores pixel y*w+x as blue, green, red at 3x |
| Bitmap.PixelRowPadding | src/graphics/desktop_duplicator.cpp:458-469 | the bytes of a row after the first 3w are zero |
| Bitmap.StoredPixelAt | src/graphics/desktop_duplicator.cpp:460-472 | in any file whose body is the pixel data, pixel (x, y) sits at 54 + y*rowSize + 3x as blue, green, red |
| Bitmap.FramePixel | src/graphics/desktop_duplicator.cpp:463 | the index `y * width + x` of pixel (x, y) lies inside a frame of w*h pixels, so line 463 never reads past the vector |
| Bitmap.BmpPixelAt | src/graphics/desktop_duplicator.cpp:460-472 | the written file holds pixel (x, y) at 54 + y*rowSize + 3x as blue, green, red |
| Bitmap.BmpPaddingZero | src/graphics/desktop_duplicator.cpp:458-472 | every padding byte of every row of the written file is zero |
| Bitmap.DecodeStoredPixel | src/graphics/desktop_duplicator.cpp:460-469 | decoding a stored row gives back each pixel of the frame |
| Bitmap.DecodeStoredRow | src/graphics/desktop_duplicator.cpp:460-472 | decoding a stored row gives back that row of the frame |
| Bitmap.DecodeStoredRows | src/graphics/desktop_duplicator.cpp:460-473 | decoding the first rows of the body gives back the frame's prefix |
| Bitmap.DecodeWritten | src/graphics/desktop_duplicator.cpp:450-473 | any byte string made of the headers and the pixel data decodes to the frame with its width and height |
| Bitmap.BmpRoundTrip | src/graphics/desktop_duplicator.cpp:373-473 | decoding the written file gives back the width, the height and the frame exactly |
| Bitmap.FillFileHeader | src/graphics/desktop_duplicator.cpp:390-408 | the zero-initialised 14-byte array, filled field by field, is 'B','M', the file size, four zero bytes and the data offset |
| Bitmap.FillInfoHeader | src/graphics/desktop_duplicator.cpp:410-448 | the zero-initialised 40-byte array, filled field by field, is the info header |
| Bitmap.FillRow | src/graphics/desktop_duplicator.cpp:460-469 | refilling the row buffer, whose padding is still zero, yields exactly stored row y |
| Bitmap.WritePixelRows | src/graphics/desktop_duplicator.cpp:458-473 | the row loop appends the whole pixel body to what was written before |
| Bitmap.EncodeBmp | src/graphics/desktop_duplicator.cpp:373-473 | the bytes written are the BMP file of the frame |
| SnapshotNames.DigitsValue | src/graphics/desktop_duplicator.cpp:499-502 | the decimal digits of n read back as n |
| SnapshotNames.DigitsNoLeadingZero | src/graphics/desktop_duplicator.cpp:499-502 | the digits start with '0' only for 0 |
| SnapshotNames.LeadingZerosValue | src/graphics/desktop_duplicator.cpp:499-502 | zero fill does not change the value |
| SnapshotNames.PaddedDigits | src/graphics/desktop_duplicator.cpp:499-502 | `setfill('0') << setw(k)` gives max(k, digit count) characters that read back as n |
| SnapshotNames.PaddedDigitsInjective | src/graphics/desktop_duplicator.cpp:502 | distinct counters give distinct padded fields |
| SnapshotNames.PaddedLength | src/graphics/desktop_duplicator.cpp:499-502 | a number below 10^k padded to k characters has exactly k |
| SnapshotNames.StampLength | src/graphics/desktop_duplicator.cpp:496 | a `%Y%m%d_%H%M%S` stamp with a four-digit year has 15 characters |
| SnapshotNames.SnapshotNameInjective | src/graphics/desktop_duplicator.cpp:489-505 | two names with equal-length stamps are equal only when the stamps, the milliseconds and the counters are |
| SnapshotNames.ReasonFileNameOfSnapshot | src/graphics/desktop_duplicator.cpp:211 | the reason file of a ".bmp" snapshot has the same name with extension "txt" |
| DesktopDuplication.Decide | src/graphics/desktop_duplicator.cpp:129-176 | frames of different sizes are refused; otherwise the answer is "changed count >= pixel threshold" |
| DesktopDuplication.SamplePixelInside | src/graphics/desktop_duplicator.cpp:185-189 | a set sample index lies in both frames and gives coordinates inside the scan area |
| DesktopDuplication.TriggerHasSample | src/graphics/desktop_duplicator.cpp:176-189 | a positive decision with threshold at least 1 and a non-negative byte threshold always has a sample pixel |
| DesktopDuplication.DesktopDuplicator.constructor | src/graphics/desktop_duplicator.cpp:11-16 | zero size and counter, no reference frame, nothing written |
| DesktopDuplication.DesktopDuplicator.Initialize | src/graphics/desktop_duplicator.cpp:20-94 | success exactly when duplication was obtained; the screen size is taken from the desktop rectangle as soon as it is known |
| DesktopDuplication.DesktopDuplicator.CaptureFrame | src/graphics/desktop_duplicator.cpp:234-353 | success exactly when a surface was mapped and the frame released; the out-vector receives the centred frame whenever a surface was mapped |
| DesktopDuplication.DesktopDuplicator.GenerateTimestampedFilename | src/graphics/desktop_duplicator.cpp:479-508 | the counter is incremented first and the name carries the incremented value |
| DesktopDuplication.DesktopDuplicator.SaveFrameToBmp | src/graphics/desktop_duplicator.cpp:356-477 | when the file can be written, "screenshots/<name>" holds the BMP file of the frame; otherwise nothing changes |
| DesktopDuplication.DesktopDuplicator.CaptureReferenceFrame | src/graphics/desktop_duplicator.cpp:96-113 | the flag is set only by a successful capture, whether or not the snapshot is saved; the counter moves only when a snapshot is named |
| DesktopDuplication.DesktopDuplicator.SaveTriggerSnapshot | src/graphics/desktop_duplicator.cpp:207-229 | one name is taken; the reason file and the bitmap are each written only if their file opens |
| DesktopDuplication.DesktopDuplicator.CheckForChanges | src/graphics/desktop_duplicator.cpp:115-232 | the result is true exactly when a reference exists, the capture succeeds, the sizes agree and the changed count reaches the pixel threshold; files and counter change only on a saved trigger; the reference is never modified |
| Configuration.Find | src/config/config.cpp:34 | the position found is the first '=' of the line; none means the line has no '=' |
| Configuration.LinesUnlines | src/config/config.cpp:29 | reading lines back from text written as lines ending in "\n" gives those lines |
| Configuration.ParseLine | src/config/config.cpp:31-38 | a line yields an entry only if it is non-empty, does not start with '#' and is key "=" value with no '=' in the key |
| Configuration.ParseEntryLine | src/config/config.cpp:34-37 | `key=value` with no '=' in the key and no leading '#' yields exactly that key and value, even when the value holds '=' |
| Configuration.ParseStep | src/config/config.cpp:29-39 | each line updates the map parsed so far |
| Configuration.ParseLastWins | src/config/config.cpp:37 | the last line defining a key decides its value |
| Configuration.ParseFromLines | src/config/config.cpp:34-37 | every parsed value comes from some line of the file |
| Configuration.SkippedLineIgnored | src/config/config.cpp:31 | an empty line or a line starting with '#' can be removed without changing the result |
| Configuration.ParseEntryLines | src/config/config.cpp:64 | parsing one `key=value` line per listed key, repeats allowed, gives the map restricted to the listed keys |
| Configuration.HeaderIgnored | src/config/config.cpp:62 | the header comment and the blank line change nothing when read back |
| Configuration.SaveLoadRoundTrip | src/config/config.cpp:56-67 | parsing what `save` wrote, in whatever order it visited the keys, gives back the map, provided keys have no '=' or newline, do not start with '#' and values have no newline |
| Configuration.KeyWithEqualsSplits | src/config/config.cpp:34-36 | a key holding '=' is not read back: "a=b" with value "c" comes back as key "a" with value "b=c" |
| Configuration.DefaultFileEntries | src/config/config.cpp:71-92 | the 23 lines of the default file read back as exactly the thirteen keys of lines 72-84, each with the value written there (`hold_mode` 1, `hold_key` left_alt, `tap_time` 100, `scan_area_x` 8, ...); the comments and the blank line give no entry |
| Configuration.DefaultTextLines | src/config/config.cpp:69-92 | splitting the text `createDefault` writes at each "\n", as `load` does at lines 27-29, gives back exactly its 23 lines, since none of them holds a '\n' |
| Configuration.DefaultTextEntries | src/config/config.cpp:17-41 | loading a freshly created default file gives exactly the thirteen default keys with their values, and no other key |
| Configuration.KeyedLinesParse | src/config/config.cpp:29-39 | lines holding distinct keys at known positions, every other line giving nothing, read back as exactly those keys, each with its own value |
| Configuration.SavedEntries | src/config/config.cpp:62-65 | the header followed by one `key=value` line per key, each key exactly once |
| Configuration.Config.constructor | src/config/config.cpp:13-15 | the file name is stored and the file is loaded, created with the defaults first if missing |
| Configuration.Config.CreateDefault | src/config/config.cpp:69-94 | the file receives the default text when it can be written |
| Configuration.Config.ReadEntries | src/config/config.cpp:27-39 | the old values are dropped and the new ones are exactly the parse of the lines |
| Configuration.Config.Load | src/config/config.cpp:17-41 | an empty argument keeps the file name; an existing file is parsed afresh; a missing one is created first; if it still cannot be read, the old values stay and the result is false |
| Configuration.Config.Get | src/config/config.cpp:43-46 | the stored value, or the default exactly when the key is absent |
| Configuration.Config.GetBool | src/config/config.cpp:48-54 | the default only for a missing key; otherwise true exactly for "true", "1", "yes" and "on" |
| Configuration.Config.GetParsed | src/config/config.h:47-55 | the default exactly when the key is absent; otherwise the stored text converted |
| Configuration.Config.Set | src/config/config.h:72-77 | the key now holds the value, which `Get` returns, and every other key is unchanged |
| Configuration.Config.SetBool | src/config/config.h:72-77 | a boolean is stored as "1" or "0", and `GetBool` reads it back |
| Configuration.Config.Save | src/config/config.cpp:56-67 | an empty argument keeps the file name; when the file can be written it receives the header and one line per entry in some key order; otherwise nothing changes |
| KeyCodes.IndexOfRow | src/input/keycode_mapper.cpp:12-82 | looking up row i's name and code by value finds row i |
| KeyCodes.RowsDistinct | src/input/keycode_mapper.cpp:12-82 | two different rows have different names and different codes |
| KeyCodes.NameNotEmpty | src/input/keycode_mapper.cpp:12-82 | no listed name is empty |
| KeyCodes.CodesInRange | src/input/keycode_mapper.cpp:12-82 | every listed code lies in 0x01..0xA5 |
| KeyCodes.Names | src/input/keycode_mapper.cpp:12-82 | the name column of the 69 rows: pairwise distinct, none of them empty |
| KeyCodes.Codes | src/input/keycode_mapper.cpp:12-82 | the code column of the 69 rows: pairwise distinct, each in 0x01..0xA5 |
| KeyCodes.TableExtend | src/input/keycode_mapper.cpp:96-99 | one more loop step adds one more pair, overwriting |
| KeyCodes.TableHolds | src/input/keycode_mapper.cpp:96-99 | with distinct keys, every inserted key maps to its own value |
| KeyCodes.TableOnlyKeys | src/input/keycode_mapper.cpp:96-99 | only inserted keys are present |
| KeyCodes.TablesStep | src/input/keycode_mapper.cpp:96-99 | one loop step inserts row i into both maps |
| KeyCodes.NameLookup | src/input/keycode_mapper.cpp:96-108 | a name is in the built map exactly when it is listed, and maps to its row's code, never -1 |
| KeyCodes.CodeLookup | src/input/keycode_mapper.cpp:96-113 | a code is in the built map exactly when it is listed, and maps to its row's name, never "" |
| KeyCodes.KeyCodeMapper.constructor | src/input/keycode_mapper.cpp:90-100 | after the loop both maps hold the whole table |
| KeyCodes.KeyCodeMapper.GetKeyCode | src/input/keycode_mapper.cpp:102-108 | -1 exactly for unlisted names; a listed name gives its row's code |
| KeyCodes.KeyCodeMapper.GetKeyName | src/input/keycode_mapper.cpp:110-113 | "" exactly for unlisted codes; a listed code gives its row's name |
| KeyCodes.KeyCodeMapper.IsValidKeyName | src/input/keycode_mapper.cpp:115-117 | holds exactly when `GetKeyCode` is not -1 |
| KeyCodes.NameRoundTrip | src/input/keycode_mapper.cpp:102-113 | `getKeyName(getKeyCode(n)) == n` for every listed name |
| KeyCodes.CodeRoundTrip | src/input/keycode_mapper.cpp:102-113 | `getKeyCode(getKeyName(c)) == c` for every listed code |
| KeyCodes.CaseSensitive | src/input/keycode_mapper.cpp:102-108 | "left_alt" is found and "LEFT_ALT" is not |
| ComResources.ComResource.constructor | src/common/com_resource.h:26 | a new handle is null and converts to false |
| ComResources.ComResource.Move | src/common/com_resource.h:44-46 | the new handle takes the pointer, the source becomes null, nothing is released |
| ComResources.ComResource.Release | src/common/com_resource.h:63-68 | a held pointer is released exactly once and the handle becomes null; a null handle stays null |
| ComResources.ComResource.Destroy | src/common/com_resource.h:31-33 | destruction releases a held pointer exactly once |
| ComResources.ComResource.MoveAssign | src/common/com_resource.h:51-58 | from another handle: the old pointer is released once, then the source's pointer is taken and the source nulled; self-assignment changes nothing |
| ComResources.ComResource.ReleaseAndGetAddressOf | src/common/com_resource.h:86-89 | the old pointer is released once before the slot receives the new object |
| ComResources.ComResource.GetAddressOf | src/common/com_resource.h:80 | the slot is overwritten without a release |
| ComResources.ComResource.Get | src/common/com_resource.h:74 | the raw pointer is non-null exactly when the handle converts to true |
| ComResources.ReleaseThenDestroy | src/common/com_resource.h:31-68 | an explicit `release` followed by the destructor releases the object exactly once |
| ComResources.MoveThenDestroy | src/common/com_resource.h:31-46 | after a move, destroying both handles releases the object exactly once |

## Left out

- Direct3D and DXGI (src/graphics/desktop_duplicator.cpp:20-94, 234-300, 343-352): device creation, output duplication, frame acquisition, the staging copy, `Map`, `Unmap` and `ReleaseFrame` are foreign GPU calls. Their outcomes are the inputs `InitOutcome` and `Acquisition`, and the mapped surface is a byte sequence with a row pitch.
- File-system effects: `CreateDirectory`, opening and writing files, and the `getline` loop over a stream. Whether a file opens is the input `Disk` or `writable`. Contents are recorded as byte sequences and text, and `Lines` splits text at "\n".
- Clock and `localtime_s`: the time is the input `Clock`, and the date fields are taken as given.
- Reason text and console output (src/graphics/desktop_duplicator.cpp:170-204, 214-217): stream formatting with no contract. The model keeps only which reason file is written and why the sample index is valid.
- ChangeDetection.ByteThreshold: computed in exact real arithmetic. The rounding of the `double` product `changeSensitivity * 0.01 * 255` is not modelled.
- Configuration.Config.GetParsed: the `istringstream >> value` conversion of the template `get` is a parameter. The numeric parsing itself is not modelled.
- Configuration.Config.SetBool: only the `bool` instance of the template `set` is modelled, besides strings. Other types' `ostringstream` text is not.
- Configuration.Lines: text is split at "\n" only. The text-mode translation of "\r\n" on Windows and text encodings are not modelled.
- DesktopDuplication.DesktopDuplicator.GenerateTimestampedFilename: `frameCount` is unbounded. The 32-bit `int` overflow after 2^31 - 1 snapshots is not modelled.
- Bitmap.EncodeBmp: requires non-negative sizes whose header fields fit in 32 bits (`BmpFits`) and a frame of exactly w*h pixels. The C++ code behaves differently outside that range, and none of it is modelled. With a width below -1, `rowSize` is negative: `std::vector<uint8_t> rowBuffer(rowSize, 0)` (src/graphics/desktop_duplicator.cpp:458) then throws, after both headers have been written. With a negative height, no row is written, and the file is the 54 header bytes whose size field holds `54 + rowSize * height`. Sizes whose header fields exceed 32 bits overflow `int`, and a frame shorter than w*h is read out of bounds. The non-negative sizes cost nothing in practice: `TriggerBot::validateConfig` (src/features/triggerbot.cpp:200-202) refuses to start unless `scan_area_x` and `scan_area_y` are positive. Those two values are the sizes `run` passes on (src/features/triggerbot.cpp:106-107). The same holds for the `0 <= w` and `0 <= h` requires of `Region.ScanOrigin`, `Region.ExtractRegion` and `DesktopDuplication.SurfaceFits`.
- Region.ExtractRegion: requires the scan area to fit the screen and says nothing about larger areas. An area wider than the screen gets a negative `scanLeft` (see `OversizedAreaStartsBeforeScreen`). The offset `y * RowPitch + x * 4` (src/graphics/desktop_duplicator.cpp:330) is computed in 32-bit unsigned arithmetic, because `RowPitch` is a `UINT`, so a negative `x` wraps it to `y * RowPitch - 4 * |x|`. In a row `y >= 1` that lands earlier in the same buffer, in the tail of the previous screen row while the area is less than twice the screen width, and the wrong pixels are copied without any fault. The read leaves the buffer only when the rows start at 0, that is for an area about as tall as the screen, or when the area is taller than the screen, so that `scanTop < 0` and the row term wraps as well.
- ComResources.ComResource.GetAddressOf: overwriting a held pointer through `getAddressOf` leaks it. The model states that nothing is released and nothing more.
- `KeyCodeMapper::instance()` (src/input/keycode_mapper.cpp:84-88): a function-local static; the model builds one mapper with the constructor.
- src/features/triggerbot.cpp (the polling loop), src/graphics/overlay.cpp, src/performance/*, src/input/input_helper.*, src/ui/ui_helper.* and src/main.cpp are not part of this model. They are timing, input injection, window drawing and thin operating-system wrappers.
