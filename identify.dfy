/**
 * The camera screen. Three flags drive it: whether a recognition is being
 * waited for (`isScanning`), the message shown (`error`), and whether the
 * camera stream is live (`cameraActive`). The camera, the canvas and the
 * recognition service are outside: their outcomes arrive as events.
 *
 * `Step` is the screen's reaction to each event on the flags together with
 * the number of recognition calls still outstanding; `CaptureScreen` is the
 * component itself, its methods proved to follow `Step`.
 */
module Identify {
  import opened PlantTypes
  import opened HistoryStore

  const PermissionMessage: string := "無法取得相機權限。請在系統設定中允許網頁存取相機。"
  const RetryMessage: string := "AI 無法識別此植物，請嘗試更換角度或保持光線充足。"

  datatype Flags = Flags(isScanning: bool, error: Option<string>, cameraActive: bool)

  /** The flags and the number of recognition calls awaiting an answer. */
  datatype Gate = Gate(flags: Flags, inFlight: nat)

  const Initial: Gate := Gate(Flags(false, None, false), 0)

  /** How the camera request ended. */
  datatype CameraOutcome =
    | StreamAttached    // granted, and the video element was there to take the stream
    | VideoGone         // granted, but the video element was already gone
    | PermissionDenied  // the request failed

  /** What the recognition service answered. */
  datatype Recognition = Recognized(info: PlantInfo) | RecognitionError

  datatype CaptureEvent =
    | CameraReady(outcome: CameraOutcome)
    | CaptureTap(refsPresent: bool, contextAvailable: bool)  // the capture button's handler ran
    | Completed(result: Recognition)                         // an outstanding call answered

  /**
   * The capture button is disabled. The button's `disabled` attribute and the
   * handler's own guard agree: with the element references and a drawing
   * context present, a tap is ignored exactly when the button is disabled.
   */
  predicate CaptureDisabled(f: Flags): (b: bool)
    ensures b <==> Step(Gate(f, 0), CaptureTap(true, true)) == Gate(f, 0)
  {
    f.isScanning || !f.cameraActive
  }

  /**
   * The "starting camera" overlay is shown. While it is, no message is shown,
   * the button is disabled and every capture tap is ignored.
   */
  predicate LoadingOverlay(f: Flags): (b: bool)
    ensures b ==> CaptureDisabled(f) && f.error.None?
    ensures b ==> forall r, c :: Step(Gate(f, 0), CaptureTap(r, c)) == Gate(f, 0)
  {
    !f.cameraActive && f.error.None?
  }

  /**
   * The screen's reaction to one event. The camera, once live, stays live; at
   * most one call starts per event, and only from a tap on an enabled button;
   * and only a failed answer to an outstanding call turns scanning off.
   */
  function Step(g: Gate, e: CaptureEvent): (r: Gate)
    ensures g.flags.cameraActive ==> r.flags.cameraActive
    ensures r.inFlight <= g.inFlight + 1
    ensures r.inFlight > g.inFlight ==> e.CaptureTap? && !g.flags.isScanning && g.flags.cameraActive
    ensures g.flags.isScanning && !r.flags.isScanning ==>
              g.inFlight > 0 && e == Completed(RecognitionError)
  {
    match e
    case CameraReady(StreamAttached) => g.(flags := g.flags.(cameraActive := true))
    case CameraReady(VideoGone) => g
    case CameraReady(PermissionDenied) => g.(flags := g.flags.(error := Some(PermissionMessage)))
    case CaptureTap(refsPresent, contextAvailable) =>
      if !refsPresent || g.flags.isScanning || !g.flags.cameraActive then g
      else Gate(g.flags.(isScanning := true, error := None),
                g.inFlight + (if contextAvailable then 1 else 0))
    case Completed(result) =>
      if g.inFlight == 0 then g  // no call is waiting; nothing answers
      else match result
        case Recognized(_) => g.(inFlight := g.inFlight - 1)
        case RecognitionError =>
          Gate(g.flags.(isScanning := false, error := Some(RetryMessage)), g.inFlight - 1)
  }

  function RunCapture(g: Gate, es: seq<CaptureEvent>): Gate
    decreases |es|
  {
    if es == [] then g else RunCapture(Step(g, es[0]), es[1..])
  }

  /** At most one call outstanding, and while one is, the screen is scanning. */
  predicate Safe(g: Gate)
  {
    g.inFlight <= 1 && (g.inFlight == 1 ==> g.flags.isScanning)
  }

  /**
   * The handler starts a recognition exactly when its element references
   * exist, the button is enabled and the canvas gives a drawing context;
   * when the button is disabled (or the references are missing) it does
   * nothing at all. A start sets scanning and clears the message, even when
   * no context is available and so no call is made.
   */
  lemma CaptureGate(g: Gate, refsPresent: bool, contextAvailable: bool)
    ensures var t := Step(g, CaptureTap(refsPresent, contextAvailable));
      && (t.inFlight > g.inFlight <==> refsPresent && contextAvailable && !CaptureDisabled(g.flags))
      && (!refsPresent || CaptureDisabled(g.flags) ==> t == g)
      && (refsPresent && !CaptureDisabled(g.flags) ==>
            t.flags == Flags(true, None, true) && t.inFlight <= g.inFlight + 1)
  {
  }

  lemma StepKeepsSafe(g: Gate, e: CaptureEvent)
    requires Safe(g)
    ensures Safe(Step(g, e))
  {
  }

  /**
   * Whatever happens on the screen, at most one recognition is outstanding,
   * and the button stays disabled while it is.
   */
  lemma {:induction false} AtMostOneInFlight(g: Gate, es: seq<CaptureEvent>)
    requires Safe(g)
    ensures Safe(RunCapture(g, es))
    ensures RunCapture(g, es).inFlight == 1 ==> CaptureDisabled(RunCapture(g, es).flags)
    decreases |es|
  {
    if es != [] {
      StepKeepsSafe(g, es[0]);
      AtMostOneInFlight(Step(g, es[0]), es[1..]);
    }
  }

  /**
   * A failed recognition shows the retry message and re-enables scanning; a
   * successful one leaves the flags as they were, still scanning.
   */
  lemma CompletionOutcomes(g: Gate, info: PlantInfo)
    requires Safe(g) && g.inFlight == 1
    ensures Step(g, Completed(RecognitionError)) ==
              Gate(Flags(false, Some(RetryMessage), g.flags.cameraActive), 0)
    ensures Step(g, Completed(Recognized(info))) == Gate(g.flags, 0)
    ensures Step(g, Completed(Recognized(info))).flags.isScanning
  {
  }

  /**
   * A tap that found no drawing context leaves the screen scanning with
   * nothing outstanding, and from then on no event clears `isScanning`: the
   * button stays disabled for the rest of the screen's life.
   */
  lemma {:induction false} NoContextStaysScanning(g: Gate, es: seq<CaptureEvent>)
    requires g.flags.isScanning && g.inFlight == 0
    ensures RunCapture(g, es).flags.isScanning && RunCapture(g, es).inFlight == 0
    ensures CaptureDisabled(RunCapture(g, es).flags)
    decreases |es|
  {
    if es != [] {
      NoContextStaysScanning(Step(g, es[0]), es[1..]);
    }
  }

  /**
   * The camera outcomes from the initial state: an attached stream makes the
   * camera live and hides the overlay; a denial shows the message, keeps the
   * camera off and hides the overlay, and every later tap does nothing, since
   * nothing asks for the camera again; a stream with no video element leaves
   * the screen warming up.
   */
  lemma CameraOutcomes(es: seq<CaptureEvent>)
    requires forall i :: 0 <= i < |es| ==> es[i].CaptureTap?
    ensures LoadingOverlay(Initial.flags) && CaptureDisabled(Initial.flags)
    ensures var g := Step(Initial, CameraReady(StreamAttached));
      g.flags.cameraActive && !LoadingOverlay(g.flags) && !CaptureDisabled(g.flags)
    ensures var g := Step(Initial, CameraReady(PermissionDenied));
      && g.flags.error == Some(PermissionMessage) && !g.flags.cameraActive
      && !LoadingOverlay(g.flags) && RunCapture(g, es) == g
    ensures Step(Initial, CameraReady(VideoGone)) == Initial
  {
    DeniedIgnoresTaps(Step(Initial, CameraReady(PermissionDenied)), es);
  }

  lemma {:induction false} DeniedIgnoresTaps(g: Gate, es: seq<CaptureEvent>)
    requires !g.flags.cameraActive
    requires forall i :: 0 <= i < |es| ==> es[i].CaptureTap?
    ensures RunCapture(g, es) == g
    decreases |es|
  {
    if es != [] {
      assert Step(g, es[0]) == g;
      DeniedIgnoresTaps(g, es[1..]);
    }
  }

  /** The description handed to the application: the recognised one with the preview as its image. */
  function WithPreview(info: PlantInfo, previewUrl: string): (r: PlantInfo)
    ensures r.imageUrl == Some(previewUrl) && r.(imageUrl := info.imageUrl) == info
  {
    info.(imageUrl := Some(previewUrl))
  }

  /**
   * The record stored for a successful capture differs from what the service
   * recognised only in its image (the preview) and its two bookkeeping
   * fields, and a fresh description comes out carrying all ten fields.
   */
  lemma StoredRecordFromCapture(info: PlantInfo, previewUrl: string, idClock: int, tsClock: int)
    ensures var rec := Stamp(WithPreview(info, previewUrl), idClock, tsClock);
      && rec.(id := info.id, imageUrl := info.imageUrl, timestamp := info.timestamp) == info
      && rec.imageUrl == Some(previewUrl)
      && rec.id == Some(DecimalString(idClock)) && rec.timestamp == Some(tsClock)
      && (IsFresh(info) ==> FieldNames(rec) == RequiredFields + OptionalFields)
  {
  }

  /**
   * The service's answer as the screen sees it: no text or empty text is a
   * failure, otherwise the text is parsed and a parse failure is a failure
   * too. No field is checked locally.
   */
  function RecognitionOf(responseText: Option<string>, parse: string -> Option<PlantInfo>): (r: Recognition)
    ensures r.Recognized? <==> responseText.Some? && responseText.value != "" && parse(responseText.value).Some?
    ensures r.Recognized? ==> Some(r.info) == parse(responseText.value)
  {
    if responseText.None? || responseText.value == "" then RecognitionError
    else match parse(responseText.value)
      case Some(info) => Recognized(info)
      case None => RecognitionError
  }

  /** One track of the camera stream. */
  class MediaTrack {
    var live: bool

    constructor ()
      ensures live
    {
      live := true;
    }
  }

  /** The camera screen component. */
  class CaptureScreen {
    var isScanning: bool
    var error: Option<string>
    var cameraActive: bool
    /** Recognition calls awaiting an answer. */
    ghost var inFlight: nat
    /** Whether the video element holds a stream, and that stream's tracks. */
    var attached: bool
    var stream: seq<MediaTrack>

    function CurrentFlags(): Flags
      reads this
    {
      Flags(isScanning, error, cameraActive)
    }

    ghost function State(): Gate
      reads this
    {
      Gate(CurrentFlags(), inFlight)
    }

    ghost predicate Valid()
      reads this
    {
      Safe(State()) && (!attached ==> stream == [])
    }

    predicate CaptureButtonDisabled()
      reads this
    {
      CaptureDisabled(CurrentFlags())
    }

    predicate ShowsLoadingOverlay()
      reads this
    {
      LoadingOverlay(CurrentFlags())
    }

    constructor ()
      ensures Valid() && State() == Initial && !attached
      ensures ShowsLoadingOverlay() && CaptureButtonDisabled()
    {
      isScanning, error, cameraActive := false, None, false;
      inFlight := 0;
      attached, stream := false, [];
    }

    /**
     * The camera request ended. A granted stream is attached only when the
     * video element is still there; one granted after it is gone is neither
     * attached nor stopped.
     */
    method SetupCamera(outcome: CameraOutcome, tracks: seq<MediaTrack>)
      requires Valid()
      modifies this
      ensures Valid()
      ensures State() == Step(old(State()), CameraReady(outcome))
      ensures outcome == StreamAttached ==> attached && stream == tracks
      ensures outcome != StreamAttached ==> attached == old(attached) && stream == old(stream)
      ensures outcome != VideoGone ==> !ShowsLoadingOverlay()
    {
      match outcome
      case StreamAttached =>
        attached, stream := true, tracks;
        cameraActive := true;
      case VideoGone =>
      case PermissionDenied =>
        error := Some(PermissionMessage);
    }

    /**
     * The capture button's handler. It returns at once unless the element
     * references exist, no scan is running and the camera is live; otherwise
     * it marks the screen scanning, clears the message and, when the canvas
     * gives a drawing context, sends the frame for recognition.
     */
    method HandleCapture(refsPresent: bool, contextAvailable: bool) returns (requested: bool)
      requires Valid()
      modifies this
      ensures Valid() && attached == old(attached) && stream == old(stream)
      ensures State() == Step(old(State()), CaptureTap(refsPresent, contextAvailable))
      ensures requested <==> refsPresent && contextAvailable && !old(CaptureButtonDisabled())
      ensures requested ==> inFlight == 1
    {
      if !refsPresent || isScanning || !cameraActive {
        return false;
      }
      isScanning := true;
      error := None;
      if contextAvailable {
        inFlight := inFlight + 1;
        requested := true;
      } else {
        requested := false;
      }
    }

    /**
     * The outstanding recognition answered. On success the recognised
     * description, with the preview as its image, goes to the application
     * and the flags stay; on failure the retry message shows and scanning
     * stops.
     */
    method Complete(result: Recognition, previewUrl: string) returns (identified: Option<PlantInfo>)
      requires Valid() && inFlight > 0
      modifies this
      ensures Valid() && attached == old(attached) && stream == old(stream)
      ensures State() == Step(old(State()), Completed(result)) && inFlight == 0
      ensures identified.Some? <==> result.Recognized?
      ensures result.Recognized? ==> identified == Some(WithPreview(result.info, previewUrl))
      ensures result.Recognized? ==> CurrentFlags() == old(CurrentFlags()) && isScanning
      ensures result.RecognitionError? ==> !isScanning && error == Some(RetryMessage)
    {
      inFlight := inFlight - 1;
      match result
      case Recognized(info) =>
        identified := Some(WithPreview(info, previewUrl));
      case RecognitionError =>
        error := Some(RetryMessage);
        isScanning := false;
        identified := None;
    }

    /**
     * Leaving the screen: when the video element reference still holds the
     * element and a stream is attached to it, every one of the stream's tracks
     * is stopped; when the reference is already cleared, nothing is stopped.
     */
    method Teardown(videoRefPresent: bool)
      requires Valid()
      modifies set t | t in stream
      ensures videoRefPresent && attached ==> forall t :: t in stream ==> !t.live
      ensures !videoRefPresent ==> forall t :: t in stream ==> t.live == old(t.live)
    {
      if videoRefPresent && attached {
        var i := 0;
        while i < |stream|
          invariant 0 <= i <= |stream|
          invariant forall j :: 0 <= j < i ==> !stream[j].live
        {
          stream[i].live := false;
          i := i + 1;
        }
      }
    }
  }
}
