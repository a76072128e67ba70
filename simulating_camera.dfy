/**
 * The simulating camera: a camera whose frames come from an image server.
 * Modelled are its configuration handlers (pixel type, bit depth, CCD size,
 * region of interest), the overflow policy of handing a frame to the host,
 * the start/stop state of its acquisition thread, the number of cycles that
 * thread runs, and the copy of a fetched frame into the image.
 */
module SimulatingCamera {
  import opened Bytes
  import opened Options
  import opened MMDevice
  import opened PixelTypes

  /** The smallest and largest CCD edge the size handlers accept. */
  const MinCCDSize: int := 16
  const MaxCCDSize: int := 33000

  /** A call the camera makes on the host's image queue: an insert hands
      over the image's pixels with their geometry, and whether the host is
      to process them. */
  datatype CoreCall =
    | InsertCall(image: seq<byte>, width: nat, height: nat, bytes: nat, process: bool)
    | ClearCall

  /** The calls InsertImage makes, given what the first insert returns and
      what a retry would return, and the result it reports. */
  function InsertCalls(stopOnOverflow: bool, image: seq<byte>, width: nat, height: nat, bytes: nat, first: Status, retry: Status): (r: (Status, seq<CoreCall>))
  {
    if !stopOnOverflow && first == BufferOverflow then
      (retry, [InsertCall(image, width, height, bytes, true), ClearCall, InsertCall(image, width, height, bytes, false)])
    else
      (first, [InsertCall(image, width, height, bytes, true)])
  }

  /** The overflow policy: the queue is cleared (once) exactly when the first
      insert overflows and the acquisition does not stop on overflow, and then
      the same image is inserted once more, unprocessed, and the retry's
      result reported; otherwise there is one insert and its result is
      reported. Every insert hands over the same pixels and geometry. */
  lemma InsertPolicy(stopOnOverflow: bool, image: seq<byte>, width: nat, height: nat, bytes: nat, first: Status, retry: Status)
    ensures var (status, calls) := InsertCalls(stopOnOverflow, image, width, height, bytes, first, retry);
      var overflowRetry := !stopOnOverflow && first == BufferOverflow;
      && calls[0] == InsertCall(image, width, height, bytes, true)
      && multiset(calls)[ClearCall] == (if overflowRetry then 1 else 0)
      && |calls| == (if overflowRetry then 3 else 1)
      && status == (if overflowRetry then retry else first)
      && (overflowRetry ==> calls[1] == ClearCall && !calls[2].process)
      && forall k :: 0 <= k < |calls| && calls[k].InsertCall? ==>
           calls[k].image == image && calls[k].width == width && calls[k].height == height && calls[k].bytes == bytes
  {
  }

  /** How svc's do-while loop ends, from cycle k on: cycle k is run; the loop
      goes on while it returned OK, no stop has arrived and the counter k
      (incremented by the test) is below numImages - 1. The result is the
      number of cycles run, the counter's final value and the last result. */
  datatype SvcOutcome = SvcOutcome(runs: nat, counter: nat, status: Status)

  function SvcFrom(cycle: nat -> Status, stopAt: nat -> bool, stopped: bool, numImages: int, k: nat): (r: SvcOutcome)
    ensures k < r.runs
    ensures r.status == cycle(r.runs - 1)
    ensures r.counter == r.runs || r.counter == r.runs - 1
    decreases numImages - k
  {
    var ret := cycle(k);
    if ret == Ok && !(stopped || stopAt(k)) then
      if k < numImages - 1 then SvcFrom(cycle, stopAt, stopped, numImages, k + 1)
      else SvcOutcome(k + 1, k + 1, ret)
    else SvcOutcome(k + 1, k, ret)
  }

  /** With every cycle OK and no stop, the loop runs max(numImages, 1) cycles. */
  lemma {:induction false} SvcAllOk(cycle: nat -> Status, stopAt: nat -> bool, numImages: int, k: nat)
    requires forall j :: cycle(j) == Ok && !stopAt(j)
    ensures SvcFrom(cycle, stopAt, false, numImages, k).runs == if numImages <= k + 1 then k + 1 else numImages
    ensures SvcFrom(cycle, stopAt, false, numImages, k).status == Ok
    decreases numImages - k
  {
    if k < numImages - 1 {
      SvcAllOk(cycle, stopAt, numImages, k + 1);
    }
  }

  /** Every cycle before the last returned OK without a stop, so the result
      is OK or the first failure; a failure or a stop ends the loop at once. */
  lemma {:induction false} SvcFirstFailure(cycle: nat -> Status, stopAt: nat -> bool, stopped: bool, numImages: int, k: nat)
    ensures var r := SvcFrom(cycle, stopAt, stopped, numImages, k);
      && (forall j :: k <= j < r.runs - 1 ==> cycle(j) == Ok && !(stopped || stopAt(j)))
      && (r.status != Ok || stopped || stopAt(r.runs - 1) ==> r.counter == r.runs - 1)
    decreases numImages - k
  {
    var ret := cycle(k);
    if ret == Ok && !(stopped || stopAt(k)) && k < numImages - 1 {
      SvcFirstFailure(cycle, stopAt, stopped, numImages, k + 1);
    }
  }

  /** The acquisition thread's state (MySequenceThread). */
  class SequenceThread {
    var numImages: int
    var imageCounter: nat
    var stop: bool
    /** How many times the thread has notified the camera that it exits. */
    var exitNotices: nat

    constructor()
      ensures stop && imageCounter == 0 && exitNotices == 0
    {
      numImages := 1;
      imageCounter := 0;
      stop := true;
      exitNotices := 0;
    }

    function IsStopped(): (stopped: bool)
      reads this`stop
    {
      stop
    }

    method Start(n: int)
      modifies this`numImages, this`imageCounter, this`stop
      ensures numImages == n && imageCounter == 0 && !IsStopped()
    {
      numImages := n;
      imageCounter := 0;
      stop := false;
    }

    method Stop()
      modifies this`stop
      ensures IsStopped()
    {
      stop := true;
    }

    /** The thread body: runs cycles until one fails, a stop arrives or the
        counter reaches numImages - 1, then marks the thread stopped and
        notifies the camera once. cycle(k) is what the camera's k-th cycle
        returns; stopAt(k) says whether a Stop from another thread has
        arrived by the test after cycle k. */
    method Svc(cycle: nat -> Status, stopAt: nat -> bool) returns (ret: Status, runs: nat)
      modifies this`imageCounter, this`stop, this`exitNotices
      ensures var r := SvcFrom(cycle, stopAt, old(stop), numImages, old(imageCounter));
        && runs == r.runs - old(imageCounter) && imageCounter == r.counter && ret == r.status
      ensures stop && exitNotices == old(exitNotices) + 1
    {
      var counter, stopped := imageCounter, stop;
      ghost var outcome := SvcFrom(cycle, stopAt, stopped, numImages, counter);
      runs := 0;
      while true
        invariant runs == counter - old(imageCounter) && stopped == old(stop)
        invariant SvcFrom(cycle, stopAt, stopped, numImages, counter) == outcome
        decreases numImages - counter
      {
        ret := cycle(counter);
        runs := runs + 1;
        // The test OK == ret && !IsStopped() && imageCounter++ < numImages - 1;
        // IsStopped() also sees a Stop that arrived from another thread.
        if ret != Ok || stopped || stopAt(counter) {
          break;
        }
        counter := counter + 1;
        if counter - 1 >= numImages - 1 {
          break;
        }
      }
      imageCounter := counter;
      stop := true;
      exitNotices := exitNotices + 1;
    }
  }

  /** The region of interest GetROI reports: origin and size. */
  datatype ROI = ROI(x: nat, y: nat, xSize: nat, ySize: nat)

  function Min(a: nat, b: nat): nat {
    if a < b then a else b
  }

  /** The image after a successful fetch: the first min(|body|, |img|) bytes
      come from the response body. */
  function FetchedImage(img: seq<byte>, body: seq<byte>): (r: seq<byte>)
    ensures |r| == |img|
  {
    Overwrite(img, 0, body[..Min(|body|, |img|)])
  }

  /** Exactly the first min(|body|, |img|) bytes are overwritten, each with the
      body's byte at that position; the rest keep their old values. */
  lemma FetchedImageSpec(img: seq<byte>, body: seq<byte>)
    ensures forall k :: 0 <= k < |img| ==>
      FetchedImage(img, body)[k] == if k < |body| then body[k] else img[k]
  {
    OverwriteAt(img, 0, body[..Min(|body|, |img|)]);
  }

  class SimCamera {
    /** The acquisition thread (thd_). */
    const thd: SequenceThread

    /** The PixelType property as the host stores it. */
    var pixelType: string
    var bitDepth: nat
    var nComponents: nat
    /** The image buffer img_: its geometry and its pixels. */
    var imgWidth: nat
    var imgHeight: nat
    var imgDepth: nat
    var pixels: array<byte>
    var roiX: nat
    var roiY: nat
    var ccdX: nat
    var ccdY: nat
    var stopOnOverflow: bool
    var imageCounter: nat
    /** The calls made on the host's image queue, in order. */
    var coreCalls: seq<CoreCall>

    predicate Valid()
      reads this`pixels, this`imgWidth, this`imgHeight, this`imgDepth
    {
      pixels.Length == imgWidth * imgHeight * imgDepth
    }

    /** The state after construction and Initialize: an 8bit image of the
        512 x 512 CCD, bit depth 8, no acquisition running. */
    constructor()
      ensures pixelType == Name(Mono8) && bitDepth == 8 && nComponents == 1
      ensures ccdX == 512 && ccdY == 512 && roiX == 0 && roiY == 0
      ensures imgWidth == 512 && imgHeight == 512 && imgDepth == 1
      ensures !stopOnOverflow && imageCounter == 0 && coreCalls == []
      ensures fresh(thd) && !IsCapturing()
      ensures Valid()
    {
      thd := new SequenceThread();
      pixelType := "8bit";
      bitDepth := 8;
      nComponents := 1;
      ccdX, ccdY := 512, 512;
      roiX, roiY := 0, 0;
      imgWidth, imgHeight, imgDepth := 512, 512, 1;
      pixels := new byte[512 * 512];
      stopOnOverflow := false;
      imageCounter := 0;
      coreCalls := [];
    }

    /** An acquisition runs while its thread is not stopped. */
    function IsCapturing(): (capturing: bool)
      reads this, thd`stop
    {
      !thd.IsStopped()
    }

    /** ImgBuffer::Resize: a new pixel array of the given geometry; its bytes
        are not specified. */
    method ResizeImage(w: nat, h: nat, d: nat)
      modifies this`imgWidth, this`imgHeight, this`imgDepth, this`pixels
      ensures imgWidth == w && imgHeight == h && imgDepth == d
      ensures fresh(pixels) && Valid()
    {
      imgWidth, imgHeight, imgDepth := w, h, d;
      pixels := new byte[w * h * d];
    }

    /** ResizeImageBuffer: the image becomes the CCD size, with the byte
        depth of the PixelType property (0 for a name it does not know). */
    method ResizeImageBuffer() returns (status: Status)
      modifies this`imgWidth, this`imgHeight, this`imgDepth, this`pixels
      ensures status == Ok
      ensures imgWidth == ccdX && imgHeight == ccdY && imgDepth == PixelTypeByteDepth(pixelType)
      ensures fresh(pixels) && Valid()
    {
      var byteDepth := 0;
      if pixelType == "8bit" {
        byteDepth := 1;
      } else if pixelType == "16bit" {
        byteDepth := 2;
      } else if pixelType == "32bitRGB" {
        byteDepth := 4;
      } else if pixelType == "32bit" {
        byteDepth := 4;
      } else if pixelType == "64bitRGB" {
        byteDepth := 8;
      }
      ResizeImage(ccdX, ccdY, byteDepth);
      status := Ok;
    }

    /** The PixelType action on a write of name: refused while capturing;
        otherwise the format's components, byte depth and bit depth are
        applied, and an unknown name falls back to 8bit. */
    method OnPixelTypeSet(name: string) returns (status: Status)
      modifies this`pixelType, this`nComponents, this`bitDepth, this`imgWidth, this`imgHeight, this`imgDepth, this`pixels
      ensures old(IsCapturing()) ==> status == CameraBusyAcquiring && unchanged(this)
      ensures !old(IsCapturing()) ==>
        var r := ChoosePixelType(name);
        && status == r.status && pixelType == r.property
        && nComponents == r.components && imgDepth == r.byteDepth && bitDepth == r.bitDepth
        && imgWidth == old(imgWidth) && imgHeight == old(imgHeight)
        && fresh(pixels)
        && ReportedName(imgDepth, nComponents) == Some(pixelType)
      ensures Valid() || unchanged(this)
    {
      if IsCapturing() {
        return CameraBusyAcquiring;
      }
      pixelType := name;
      if name == "8bit" {
        nComponents := 1;
        ResizeImage(imgWidth, imgHeight, 1);
        bitDepth := 8;
        status := Ok;
      } else if name == "16bit" {
        nComponents := 1;
        ResizeImage(imgWidth, imgHeight, 2);
        bitDepth := 16;
        status := Ok;
      } else if name == "32bitRGB" {
        nComponents := 4;
        ResizeImage(imgWidth, imgHeight, 4);
        bitDepth := 8;
        status := Ok;
      } else if name == "64bitRGB" {
        nComponents := 4;
        ResizeImage(imgWidth, imgHeight, 8);
        bitDepth := 16;
        status := Ok;
      } else if name == "32bit" {
        nComponents := 1;
        ResizeImage(imgWidth, imgHeight, 4);
        bitDepth := 32;
        status := Ok;
      } else {
        nComponents := 1;
        ResizeImage(imgWidth, imgHeight, 1);
        pixelType := "8bit";
        bitDepth := 8;
        status := UnknownMode;
      }
      ChoosePixelTypeSpec(name);
    }

    /** The PixelType action on a read: the name chosen from the image's
        bytes per pixel and component count, if any. */
    method OnPixelTypeGet() returns (status: Status)
      modifies this`pixelType
      ensures status == Ok
      ensures pixelType == match ReportedName(imgDepth, nComponents) case Some(n) => n case None => old(pixelType)
    {
      var bytesPerPixel := imgDepth;
      if bytesPerPixel == 1 {
        pixelType := "8bit";
      } else if bytesPerPixel == 2 {
        pixelType := "16bit";
      } else if bytesPerPixel == 4 {
        if nComponents == 4 {
          pixelType := "32bitRGB";
        } else if nComponents == 1 {
          pixelType := "32bit";
        }
      } else if bytesPerPixel == 8 {
        pixelType := "64bitRGB";
      } else {
        pixelType := "8bit";
      }
      status := Ok;
    }

    /** The BitDepth action on a write: refused while capturing; otherwise
        the bit depth is chosen (8 for a value not accepted), an 8bit format is
        widened when the bits need it, and the image takes the resulting
        bytes per pixel. */
    method OnBitDepthSet(bits: int) returns (status: Status)
      modifies this`pixelType, this`bitDepth, this`imgWidth, this`imgHeight, this`imgDepth, this`pixels
      ensures old(IsCapturing()) ==> status == CameraBusyAcquiring && unchanged(this)
      ensures !old(IsCapturing()) ==>
        var c := ChooseBitDepth(bits);
        var p := Promote(old(pixelType), c.bytesPerComponent);
        && status == c.status && bitDepth == c.bitDepth
        && pixelType == p.0 && imgDepth == p.1
        && imgWidth == old(imgWidth) && imgHeight == old(imgHeight)
        && fresh(pixels)
      ensures Valid() || unchanged(this)
    {
      if IsCapturing() {
        return CameraBusyAcquiring;
      }
      var bytesPerComponent: nat;
      if bits == 8 {
        bytesPerComponent, bitDepth, status := 1, 8, Ok;
      } else if bits == 10 {
        bytesPerComponent, bitDepth, status := 2, 10, Ok;
      } else if bits == 12 {
        bytesPerComponent, bitDepth, status := 2, 12, Ok;
      } else if bits == 14 {
        bytesPerComponent, bitDepth, status := 2, 14, Ok;
      } else if bits == 16 {
        bytesPerComponent, bitDepth, status := 2, 16, Ok;
      } else if bits == 32 {
        bytesPerComponent, bitDepth, status := 4, 32, Ok;
      } else {
        bytesPerComponent, bitDepth, status := 1, 8, UnknownMode;
      }

      var bytesPerPixel := 1;
      if pixelType == "8bit" {
        if bytesPerComponent == 2 {
          pixelType := "16bit";
          bytesPerPixel := 2;
        } else if bytesPerComponent == 4 {
          pixelType := "32bit";
          bytesPerPixel := 4;
        } else {
          bytesPerPixel := 1;
        }
      } else if pixelType == "16bit" {
        bytesPerPixel := 2;
      } else if pixelType == "32bitRGB" {
        bytesPerPixel := 4;
      } else if pixelType == "32bit" {
        bytesPerPixel := 4;
      } else if pixelType == "64bitRGB" {
        bytesPerPixel := 8;
      }
      ResizeImage(imgWidth, imgHeight, bytesPerPixel);
    }

    /** The CCD X size action on a write: a value outside [16, 33000] is an
        error and changes nothing; the current value changes nothing; any
        other value resizes the image to the new CCD width. */
    method OnCameraCCDXSize(value: int) returns (status: Status)
      modifies this`ccdX, this`imgWidth, this`imgHeight, this`imgDepth, this`pixels
      ensures value < MinCCDSize || MaxCCDSize < value ==> status == Err && unchanged(this)
      ensures MinCCDSize <= value <= MaxCCDSize && value == old(ccdX) ==> status == Ok && unchanged(this)
      ensures MinCCDSize <= value <= MaxCCDSize && value != old(ccdX) ==>
        && status == Ok && ccdX == value
        && imgWidth == ccdX && imgHeight == ccdY && imgDepth == old(imgDepth)
        && fresh(pixels) && Valid()
    {
      if value < 16 || 33000 < value {
        return Err;
      }
      if value != ccdX {
        ccdX := value;
        ResizeImage(ccdX, ccdY, imgDepth);
      }
      status := Ok;
    }

    /** The CCD Y size action, as for X. */
    method OnCameraCCDYSize(value: int) returns (status: Status)
      modifies this`ccdY, this`imgWidth, this`imgHeight, this`imgDepth, this`pixels
      ensures value < MinCCDSize || MaxCCDSize < value ==> status == Err && unchanged(this)
      ensures MinCCDSize <= value <= MaxCCDSize && value == old(ccdY) ==> status == Ok && unchanged(this)
      ensures MinCCDSize <= value <= MaxCCDSize && value != old(ccdY) ==>
        && status == Ok && ccdY == value
        && imgWidth == ccdX && imgHeight == ccdY && imgDepth == old(imgDepth)
        && fresh(pixels) && Valid()
    {
      if value < 16 || 33000 < value {
        return Err;
      }
      if value != ccdY {
        ccdY := value;
        ResizeImage(ccdX, ccdY, imgDepth);
      }
      status := Ok;
    }

    /** GetROI: the origin and the image size. */
    function GetROI(): (r: ROI)
      reads this`roiX, this`roiY, this`imgWidth, this`imgHeight
    {
      ROI(roiX, roiY, imgWidth, imgHeight)
    }

    /** SetROI: a zero size restores the full CCD frame at the origin; any
        other size crops the image to it at the given origin. */
    method SetROI(x: nat, y: nat, xSize: nat, ySize: nat) returns (status: Status)
      modifies this`roiX, this`roiY, this`imgWidth, this`imgHeight, this`imgDepth, this`pixels
      ensures status == Ok && fresh(pixels) && Valid()
      ensures xSize == 0 && ySize == 0 ==> GetROI() == ROI(0, 0, ccdX, ccdY) && imgDepth == PixelTypeByteDepth(pixelType)
      ensures !(xSize == 0 && ySize == 0) ==> GetROI() == ROI(x, y, xSize, ySize) && imgDepth == old(imgDepth)
    {
      if xSize == 0 && ySize == 0 {
        var _ := ResizeImageBuffer();
        roiX, roiY := 0, 0;
      } else {
        ResizeImage(xSize, ySize, imgDepth);
        roiX, roiY := x, y;
      }
      status := Ok;
    }

    /** ClearROI: the full CCD frame at the origin. */
    method ClearROI() returns (status: Status)
      modifies this`roiX, this`roiY, this`imgWidth, this`imgHeight, this`imgDepth, this`pixels
      ensures status == Ok && fresh(pixels) && Valid()
      ensures GetROI() == ROI(0, 0, ccdX, ccdY) && imgDepth == PixelTypeByteDepth(pixelType)
    {
      var _ := ResizeImageBuffer();
      roiX, roiY := 0, 0;
      status := Ok;
    }

    /** GetImageBufferSize: width * height * bytes per pixel, the size of the pixels. */
    function ImageBufferSize(): (n: nat)
      requires Valid()
      reads this`pixels, this`imgWidth, this`imgHeight, this`imgDepth
      ensures n == pixels.Length
    {
      imgWidth * imgHeight * imgDepth
    }

    /** InsertImage: hands the image to the host's queue, clearing the queue
        and retrying once on overflow unless the acquisition stops on
        overflow. first and retry are what the host's two inserts return. */
    method InsertImage(first: Status, retry: Status) returns (status: Status)
      modifies this`imageCounter, this`coreCalls
      ensures imageCounter == old(imageCounter) + 1
      ensures var (s, calls) := InsertCalls(stopOnOverflow, pixels[..], imgWidth, imgHeight, imgDepth, first, retry);
        status == s && coreCalls == old(coreCalls) + calls
    {
      imageCounter := imageCounter + 1;
      var image, w, h, b := pixels[..], imgWidth, imgHeight, imgDepth;
      coreCalls := coreCalls + [InsertCall(image, w, h, b, true)];
      var ret := first;
      if !stopOnOverflow && ret == BufferOverflow {
        coreCalls := coreCalls + [ClearCall];
        coreCalls := coreCalls + [InsertCall(image, w, h, b, false)];
        return retry;
      } else {
        return ret;
      }
    }

    /** The copy step of FetchImageFromUrl: a successful response's body is
        copied over the start of the image, at most the image's size;
        a failed request leaves the image as it was. */
    method FetchImage(body: Option<seq<byte>>) returns (success: bool)
      requires Valid()
      modifies pixels
      ensures success == body.Some?
      ensures body.Some? ==> pixels[..] == FetchedImage(old(pixels[..]), body.value)
      ensures body.None? ==> pixels[..] == old(pixels[..])
    {
      if body.Some? {
        var n := Min(|body.value|, imgHeight * imgWidth * imgDepth);
        Copy(pixels, 0, body.value[..n]);
        return true;
      } else {
        return false;
      }
    }

    /** One acquisition cycle (RunSequenceOnThread): fetch, then insert the
        fetched image; the insert's result is the cycle's result. */
    method RunSequenceOnThread(body: Option<seq<byte>>, first: Status, retry: Status) returns (status: Status)
      requires Valid()
      modifies pixels, this`imageCounter, this`coreCalls
      ensures body.Some? ==> pixels[..] == FetchedImage(old(pixels[..]), body.value)
      ensures body.None? ==> pixels[..] == old(pixels[..])
      ensures var (s, calls) := InsertCalls(stopOnOverflow, pixels[..], imgWidth, imgHeight, imgDepth, first, retry);
        status == s && coreCalls == old(coreCalls) + calls
      ensures imageCounter == old(imageCounter) + 1
    {
      var _ := FetchImage(body);
      status := InsertImage(first, retry);
    }

    /** StartSequenceAcquisition: refused while capturing; refused with the
        host's code if the host cannot prepare; otherwise both counters are
        reset and the thread started. prepared is what PrepareForAcq returns. */
    method StartSequenceAcquisition(numImages: int, stopOnOverflowFlag: bool, prepared: Status) returns (status: Status)
      modifies this`imageCounter, this`stopOnOverflow, thd`numImages, thd`imageCounter, thd`stop
      ensures old(IsCapturing()) ==> status == CameraBusyAcquiring && unchanged(this) && unchanged(thd)
      ensures !old(IsCapturing()) && prepared != Ok ==> status == prepared && unchanged(this) && unchanged(thd)
      ensures !old(IsCapturing()) && prepared == Ok ==>
        && status == Ok && IsCapturing()
        && imageCounter == 0 && thd.imageCounter == 0 && thd.numImages == numImages
        && stopOnOverflow == stopOnOverflowFlag
    {
      if IsCapturing() {
        return CameraBusyAcquiring;
      }
      var ret := prepared;
      if ret != Ok {
        return ret;
      }
      imageCounter := 0;
      thd.Start(numImages);
      stopOnOverflow := stopOnOverflowFlag;
      status := Ok;
    }

    /** StopSequenceAcquisition: stops a running thread (waiting for it is
        not modelled); a stopped thread is left alone. */
    method StopSequenceAcquisition() returns (status: Status)
      modifies thd`stop
      ensures status == Ok && !IsCapturing()
      ensures old(!IsCapturing()) ==> unchanged(thd)
    {
      if !thd.IsStopped() {
        thd.Stop();
      }
      status := Ok;
    }
  }
}
