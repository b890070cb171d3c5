/**
 * The `DesktopDuplicator` object (src/graphics/desktop_duplicator.cpp): the screen
 * geometry, the reference frame with its flag, the snapshot counter, and the files
 * it leaves behind. Direct3D and DXGI are not modelled: what a call into them
 * produced is a parameter (`Acquisition`, `InitOutcome`), and so are the wall
 * clock (`Clock`) and whether the file system lets a file be written (`Disk`).
 */
module DesktopDuplication {
  import opened Pixels
  import opened Wrappers
  import opened Arithmetic
  import opened ChangeDetection
  import opened Region
  import opened Bitmap
  import opened SnapshotNames

  /** `DXGI_OUTPUT_DESC::DesktopCoordinates`. */
  datatype DesktopRect = DesktopRect(left: int, top: int, right: int, bottom: int)

  /** How far `initialize` (lines 20-94) got. */
  datatype InitOutcome =
    | FailedBeforeGeometry
    | FailedAfterGeometry(desktop: DesktopRect)
    | Duplicated(desktop: DesktopRect)

  /**
   * What the Direct3D part of `captureFrame` produced: no frame (lines 244-249),
   * a failure between acquiring and mapping (lines 252-300), or the mapped staging
   * surface together with the outcome of the final `ReleaseFrame` (lines 346-351).
   */
  datatype Acquisition =
    | NotAcquired
    | CopyFailed
    | Mapped(surface: MappedSurface, releaseOk: bool)

  /** The wall clock read by `generateTimestampedFilename`. */
  datatype Clock = Clock(local: LocalTime, epochMillis: nat)

  /**
   * Whether `saveFrameToBMP` can create "screenshots" and open its file (lines 358-371),
   * and whether the trigger-reason file opens (line 213).
   */
  datatype Disk = Disk(screenshotsWritable: bool, reasonWritable: bool)

  /** A mapped surface holds the whole screen and the scan area fits in it. */
  predicate SurfaceFits(acq: Acquisition, screenWidth: int, screenHeight: int, w: int, h: int)
  {
    acq.Mapped? ==> Covers(acq.surface, screenWidth, screenHeight) && 0 <= w <= screenWidth && 0 <= h <= screenHeight
  }

  /** The decision of `checkForChanges` for two captured frames (lines 129-176). */
  predicate SignificantChange(cur: seq<Color>, ref: seq<Color>, sensitivity: real, pixelChangeThreshold: int)
  {
    |cur| == |ref| && Triggered(ChangedCount(cur, ref, ByteThreshold(sensitivity), |cur|), pixelChangeThreshold)
  }

  /**
   * Lines 129-176 once both frames exist: frames of different sizes are not compared,
   * otherwise the changed pixels are counted against the truncated byte threshold.
   */
  method Decide(cur: seq<Color>, ref: seq<Color>, sensitivity: real, pixelChangeThreshold: int)
    returns (triggered: bool)
    ensures triggered <==> SignificantChange(cur, ref, sensitivity, pixelChangeThreshold)
  {
    if |cur| != |ref| {
      return false;
    }
    var threshold := ByteThreshold(sensitivity);
    var report := CompareFrames(cur, ref, threshold);
    triggered := report.changed >= pixelChangeThreshold;
  }

  /**
   * The sample pixel of the trigger reason (lines 185-189): whenever some channel
   * maximum was raised, the scan area is not empty, the index lies in both frames,
   * and `(index % scanAreaX, index / scanAreaX)` lies inside the scan area.
   */
  lemma SamplePixelInside(cur: seq<Color>, ref: seq<Color>, w: int, h: int)
    requires 0 <= w && 0 <= h && |cur| == w * h && |ref| == |cur|
    requires LastRaise(cur, ref, |cur|) >= 0
    ensures 0 < w
    ensures var i := LastRaise(cur, ref, |cur|);
      i < |cur| && i % w < w && 0 <= i / w < h && (i / w) * w + i % w == i
  {
    var i := LastRaise(cur, ref, |cur|);
    LastRaiseInRange(cur, ref, |cur|);
    assert 0 <= i < h * w;
    PositiveProduct(w, h);
    DivModInside(i, w, h);
  }

  /** A change that triggers with some pixel threshold of at least 1 has a sample pixel to report. */
  lemma TriggerHasSample(cur: seq<Color>, ref: seq<Color>, sensitivity: real, pixelChangeThreshold: int)
    requires SignificantChange(cur, ref, sensitivity, pixelChangeThreshold) && pixelChangeThreshold >= 1
    requires 0 <= ByteThreshold(sensitivity)
    ensures LastRaise(cur, ref, |cur|) >= 0
  {
    if LastRaise(cur, ref, |cur|) < 0 {
      LastRaiseInRange(cur, ref, |cur|);
      NoRaiseIffIdentical(cur, ref, |cur|);
      assert cur == ref;
      IdenticalFramesNeverTrigger(cur, ByteThreshold(sensitivity), pixelChangeThreshold, |cur|);
      assert false;
    }
  }

  class DesktopDuplicator {
    var screenWidth: int
    var screenHeight: int
    /** The counter appended to every snapshot name. */
    var frameCount: nat
    var referenceFrame: seq<Color>
    var referenceFrameCaptured: bool
    /** `deskDupl` holds a duplication interface. */
    var duplicating: bool
    /** The bitmaps written into "screenshots", by file name. */
    var screenshots: map<string, seq<Byte>>
    /** The trigger-reason text files written into the working directory. */
    var reasonFiles: set<string>

    /** Lines 11-16. */
    constructor ()
      ensures screenWidth == 0 && screenHeight == 0 && frameCount == 0
      ensures referenceFrame == [] && !referenceFrameCaptured && !duplicating
      ensures screenshots == map[] && reasonFiles == {}
    {
      screenWidth, screenHeight, frameCount := 0, 0, 0;
      referenceFrame := [];
      referenceFrameCaptured := false;
      duplicating := false;
      screenshots := map[];
      reasonFiles := {};
    }

    /**
     * Lines 20-94: the screen size comes from the output's desktop rectangle and is
     * stored before the duplication interface is requested, so a late failure leaves it set.
     */
    method Initialize(outcome: InitOutcome) returns (ok: bool)
      modifies this`screenWidth, this`screenHeight, this`duplicating
      ensures ok <==> outcome.Duplicated?
      ensures outcome.FailedBeforeGeometry? ==> screenWidth == old(screenWidth) && screenHeight == old(screenHeight)
      ensures !outcome.FailedBeforeGeometry? ==>
        screenWidth == outcome.desktop.right - outcome.desktop.left
        && screenHeight == outcome.desktop.bottom - outcome.desktop.top
      ensures duplicating == (ok || old(duplicating))
    {
      match outcome {
        case FailedBeforeGeometry =>
          return false;
        case FailedAfterGeometry(desktop) =>
          screenWidth := desktop.right - desktop.left;
          screenHeight := desktop.bottom - desktop.top;
          return false;
        case Duplicated(desktop) =>
          screenWidth := desktop.right - desktop.left;
          screenHeight := desktop.bottom - desktop.top;
          duplicating := true;
          return true;
      }
    }

    /**
     * Lines 234-353. The out-vector is written (`written`) as soon as the surface is
     * mapped, before `ReleaseFrame`; a failing release still reports failure.
     */
    method CaptureFrame(w: int, h: int, acq: Acquisition) returns (ok: bool, written: Option<seq<Color>>)
      requires duplicating ==> SurfaceFits(acq, screenWidth, screenHeight, w, h)
      ensures ok <==> duplicating && acq.Mapped? && acq.releaseOk
      ensures written.Some? <==> duplicating && acq.Mapped?
      ensures written.Some? ==> written.value == ScanFrame(acq.surface, screenWidth, screenHeight, w, h)
    {
      if !duplicating {
        return false, None;
      }
      match acq {
        case NotAcquired =>
          return false, None;
        case CopyFailed =>
          return false, None;
        case Mapped(surface, releaseOk) =>
          var frame := ExtractRegion(surface, screenWidth, screenHeight, w, h);
          return releaseOk, Some(frame);
      }
    }

    /** Line 502: the counter is incremented before it is printed, so the first name carries 0001. */
    method GenerateTimestampedFilename(prefix: string, extension: string, clock: Clock) returns (name: string)
      modifies this`frameCount
      ensures frameCount == old(frameCount) + 1
      ensures name == SnapshotName(prefix, Stamp(clock.local), clock.epochMillis, frameCount, extension)
    {
      frameCount := frameCount + 1;
      name := SnapshotName(prefix, Stamp(clock.local), clock.epochMillis, frameCount, extension);
    }

    /** Lines 356-477: the file "screenshots/<filename>" receives the encoded bitmap. */
    method SaveFrameToBmp(frame: seq<Color>, width: int, height: int, filename: string, disk: Disk) returns (ok: bool)
      requires disk.screenshotsWritable ==> Encodable(frame, width, height)
      modifies this`screenshots
      ensures ok == disk.screenshotsWritable
      ensures screenshots == if ok then old(screenshots)[filename := BmpFile(frame, width, height)] else old(screenshots)
    {
      if !disk.screenshotsWritable {
        return false;
      }
      var bytes := EncodeBmp(frame, width, height);
      screenshots := screenshots[filename := bytes];
      return true;
    }

    /**
     * Lines 96-113: the flag is set exactly when the capture succeeds, whether or not
     * the snapshot could be saved; a failed release still overwrites the reference.
     */
    method CaptureReferenceFrame(w: int, h: int, save: bool, acq: Acquisition, clock: Clock, disk: Disk)
      returns (ok: bool)
      requires duplicating ==> SurfaceFits(acq, screenWidth, screenHeight, w, h)
      requires save && disk.screenshotsWritable ==> BmpFits(w, h)
      modifies this`referenceFrame, this`referenceFrameCaptured, this`frameCount, this`screenshots
      ensures ok <==> duplicating && acq.Mapped? && acq.releaseOk
      ensures referenceFrameCaptured == (ok || old(referenceFrameCaptured))
      ensures referenceFrame == if duplicating && acq.Mapped?
        then ScanFrame(acq.surface, screenWidth, screenHeight, w, h) else old(referenceFrame)
      ensures frameCount == old(frameCount) + (if ok && save then 1 else 0)
      ensures screenshots == if ok && save && disk.screenshotsWritable
        then old(screenshots)[SnapshotName("reference", Stamp(clock.local), clock.epochMillis, frameCount, "bmp")
                              := BmpFile(referenceFrame, w, h)]
        else old(screenshots)
    {
      var captured, written := CaptureFrame(w, h, acq);
      if written.Some? {
        referenceFrame := written.value;
      }
      if !captured {
        return false;
      }
      if save {
        var filename := GenerateTimestampedFilename("reference", "bmp", clock);
        var _ := SaveFrameToBmp(referenceFrame, w, h, filename, disk);
      }
      referenceFrameCaptured := true;
      return true;
    }

    /**
     * Lines 207-229: a new "trigger" name, the reason text file next to the working
     * directory, then the bitmap into "screenshots"; each write happens only if its
     * file can be opened.
     */
    method SaveTriggerSnapshot(frame: seq<Color>, w: int, h: int, clock: Clock, disk: Disk)
      requires disk.screenshotsWritable ==> Encodable(frame, w, h)
      modifies this`frameCount, this`screenshots, this`reasonFiles
      ensures frameCount == old(frameCount) + 1
      ensures var name := SnapshotName("trigger", Stamp(clock.local), clock.epochMillis, frameCount, "bmp");
        && reasonFiles == (if disk.reasonWritable then old(reasonFiles) + {ReasonFileName(name)} else old(reasonFiles))
        && screenshots == (if disk.screenshotsWritable then old(screenshots)[name := BmpFile(frame, w, h)] else old(screenshots))
    {
      var filename := GenerateTimestampedFilename("trigger", "bmp", clock);
      if disk.reasonWritable {
        reasonFiles := reasonFiles + {ReasonFileName(filename)};
      }
      var _ := SaveFrameToBmp(frame, w, h, filename, disk);
    }

    /**
     * Lines 115-232: without a reference, after a failed capture, or when the sizes
     * differ, nothing is compared and the answer is no; otherwise the answer is the
     * decision of line 176. A positive answer with `save` set names a snapshot, writes
     * the reason file beside the working directory and the bitmap into "screenshots".
     * The reference and its flag are never touched.
     */
    method CheckForChanges(w: int, h: int, sensitivity: real, pixelChangeThreshold: int, save: bool,
                           acq: Acquisition, clock: Clock, disk: Disk)
      returns (triggered: bool)
      requires duplicating ==> SurfaceFits(acq, screenWidth, screenHeight, w, h)
      requires save && disk.screenshotsWritable ==> BmpFits(w, h)
      modifies this`frameCount, this`screenshots, this`reasonFiles
      ensures triggered <==>
        referenceFrameCaptured && duplicating && acq.Mapped? && acq.releaseOk
        && SignificantChange(ScanFrame(acq.surface, screenWidth, screenHeight, w, h), referenceFrame,
                             sensitivity, pixelChangeThreshold)
      ensures frameCount == old(frameCount) + (if triggered && save then 1 else 0)
      ensures var name := SnapshotName("trigger", Stamp(clock.local), clock.epochMillis, frameCount, "bmp");
        && reasonFiles == (if triggered && save && disk.reasonWritable then old(reasonFiles) + {ReasonFileName(name)}
                           else old(reasonFiles))
        && screenshots == (if triggered && save && disk.screenshotsWritable
                           then old(screenshots)[name := BmpFile(ScanFrame(acq.surface, screenWidth, screenHeight, w, h), w, h)]
                           else old(screenshots))
    {
      if !referenceFrameCaptured {
        return false;
      }
      var captured, written := CaptureFrame(w, h, acq);
      if !captured {
        return false;
      }
      var currentFrame := written.value;
      triggered := Decide(currentFrame, referenceFrame, sensitivity, pixelChangeThreshold);
      if triggered && save {
        SaveTriggerSnapshot(currentFrame, w, h, clock, disk);
      }
    }
  }
}
