/**
 * The session state of the HandDetector component (components/HandDetector.tsx):
 * model loading, the webcam toggle, camera failure, the reset on stop, and one
 * run of the per-frame callback `predictWebcam`, which records the detected
 * count, redraws the overlay and assigns hands to the two monitor slots.
 *
 * The inference engine is not modelled: the hands it returns for a frame are
 * an input of Frame. Drawing is modelled by what each canvas shows.
 */
module HandDetector {
  import opened HandGeometry

  datatype Option<T> = None | Some(value: T)

  /** What a hand-monitor canvas shows: nothing, or one hand's crop window of
      the mirrored video with the hand's landmarks remapped into it. */
  datatype MonitorView = Cleared | Drawn(crop: Crop, landmarks: seq<Landmark>)

  /** The number of hand-monitor canvases. */
  const MonitorSlots: nat := 2

  /** The width and height an HTML canvas has before anything resizes it. */
  const DefaultCanvasWidth: real := 300.0
  const DefaultCanvasHeight: real := 150.0

  const ModelLoadError: string :=
    "Failed to load the hand detection model. Please try refreshing the page."
  const CameraError: string :=
    "Could not access webcam. Please check permissions and try again."

  /** The inference engine never reports a hand without landmarks. */
  predicate NonEmptyHands(hands: seq<Hand>)
  {
    forall k :: 0 <= k < |hands| ==> |hands[k]| > 0
  }

  /** The monitor view of one hand: its crop window and its remapped landmarks. */
  function HandView(hand: Hand, w: real, h: real): (v: MonitorView)
    requires |hand| > 0
    ensures v.Drawn? && v.crop.size >= 2.0 * Padding
    ensures v.crop.sx >= 0.0 && v.crop.sy >= 0.0 && Covers(v.crop, hand, w, h)
    ensures |v.landmarks| == |hand|
    ensures forall i :: 0 <= i < |hand| ==> v.landmarks[i].z == hand[i].z
    ensures v.crop == CropOf(BoxOf(hand, w, h))
    ensures v.landmarks == RemapHand(hand, v.crop, w, h)
  {
    var c := MonitorCrop(hand, w, h);
    Drawn(c, RemapHand(hand, c, w, h))
  }

  /** What monitor `slot` shows after a frame with `hands`: the hand with the
      same index in detection order, or nothing. */
  function SlotView(hands: seq<Hand>, slot: nat, w: real, h: real): (v: MonitorView)
    requires NonEmptyHands(hands)
    ensures v.Drawn? <==> slot < |hands|
  {
    if slot < |hands| then HandView(hands[slot], w, h) else Cleared
  }

  /** Both monitors after a frame with `hands`. */
  function MonitorsAfter(hands: seq<Hand>, w: real, h: real): (m: seq<MonitorView>)
    requires NonEmptyHands(hands)
    ensures |m| == MonitorSlots
    ensures forall i :: 0 <= i < MonitorSlots ==> (m[i].Drawn? <==> i < |hands|)
  {
    seq(MonitorSlots, i requires 0 <= i < MonitorSlots => SlotView(hands, i, w, h))
  }

  /** Slot i is drawn from hand i when there is one and cleared otherwise;
      hands beyond the second are shown on no monitor. */
  lemma SlotAssignment(hands: seq<Hand>, w: real, h: real)
    requires NonEmptyHands(hands)
    ensures var m := MonitorsAfter(hands, w, h);
      forall i :: 0 <= i < MonitorSlots ==>
        (i < |hands| ==> m[i] == HandView(hands[i], w, h)) &&
        (|hands| <= i ==> m[i] == Cleared)
  {
  }

  /** No hands clear both monitors; one hand is drawn on the first monitor and
      the second is cleared. */
  lemma FewHands(hands: seq<Hand>, w: real, h: real)
    requires NonEmptyHands(hands)
    ensures hands == [] ==> MonitorsAfter(hands, w, h) == [Cleared, Cleared]
    ensures |hands| == 1 ==> MonitorsAfter(hands, w, h) == [HandView(hands[0], w, h), Cleared]
  {
    var m := MonitorsAfter(hands, w, h);
    if |hands| <= 1 {
      assert m[0] == SlotView(hands, 0, w, h) && m[1] == Cleared;
    }
  }

  /** Two hands with the same landmarks give the two monitors the same view. */
  lemma IdenticalHands(hands: seq<Hand>, w: real, h: real)
    requires NonEmptyHands(hands) && |hands| == 2 && hands[0] == hands[1]
    ensures var m := MonitorsAfter(hands, w, h); m[0].Drawn? && m[0] == m[1]
  {
    var m := MonitorsAfter(hands, w, h);
    assert m[0] == HandView(hands[0], w, h) && m[1] == HandView(hands[1], w, h);
  }

  /** The component's state: the loading flag, whether the engine is ready,
      the webcam flag, the error message, the detected count, the overlay
      canvas, the two monitor canvases and whether a frame callback is
      pending. */
  class Session {
    var isLoading: bool
    var modelReady: bool
    var webcamActive: bool
    var error: Option<string>
    var detectedHandsCount: nat
    var overlayWidth: real
    var overlayHeight: real
    var overlayHands: seq<Hand>
    var monitors: seq<MonitorView>
    var frameScheduled: bool

    /** The webcam is only ever on with a ready engine, a ready engine is no
        longer loading, and monitor i is drawn exactly when more than i hands
        were counted, which is when the view shows it. */
    ghost predicate Valid()
      reads this
    {
      |monitors| == MonitorSlots &&
      (webcamActive ==> modelReady) &&
      (modelReady ==> !isLoading) &&
      forall i :: 0 <= i < MonitorSlots ==> (monitors[i].Drawn? <==> i < detectedHandsCount)
    }

    /** The state on mount. */
    constructor ()
      ensures Valid()
      ensures isLoading && !modelReady && !webcamActive && error == None
      ensures detectedHandsCount == 0 && monitors == [Cleared, Cleared] && !frameScheduled
      ensures overlayWidth == DefaultCanvasWidth && overlayHeight == DefaultCanvasHeight
      ensures overlayHands == []
    {
      isLoading, modelReady, webcamActive, error := true, false, false, None;
      detectedHandsCount := 0;
      overlayWidth, overlayHeight, overlayHands := DefaultCanvasWidth, DefaultCanvasHeight, [];
      monitors := [Cleared, Cleared];
      frameScheduled := false;
    }

    /** The engine finished loading. */
    method LoadSucceeded()
      requires Valid()
      modifies this
      ensures Valid()
      ensures modelReady && !isLoading
      ensures webcamActive == old(webcamActive) && error == old(error)
      ensures detectedHandsCount == old(detectedHandsCount) && monitors == old(monitors)
      ensures frameScheduled == old(frameScheduled) && overlayHands == old(overlayHands)
      ensures overlayWidth == old(overlayWidth) && overlayHeight == old(overlayHeight)
    {
      modelReady := true;
      isLoading := false;
    }

    /** The engine failed to load: the error is shown and loading ends, but
        the engine stays not ready, so the webcam can never be switched on. */
    method LoadFailed()
      requires Valid()
      modifies this
      ensures Valid()
      ensures error == Some(ModelLoadError) && !isLoading
      ensures modelReady == old(modelReady) && webcamActive == old(webcamActive)
      ensures detectedHandsCount == old(detectedHandsCount) && monitors == old(monitors)
      ensures frameScheduled == old(frameScheduled) && overlayHands == old(overlayHands)
      ensures overlayWidth == old(overlayWidth) && overlayHeight == old(overlayHeight)
    {
      error := Some(ModelLoadError);
      isLoading := false;
    }

    /** The start/stop button: an active webcam is always switched off; an
        inactive one is switched on only when the engine is ready, and
        otherwise nothing changes. */
    method Toggle()
      requires Valid()
      modifies this
      ensures Valid()
      ensures old(webcamActive) ==> !webcamActive
      ensures !old(webcamActive) ==> webcamActive == old(modelReady)
      ensures isLoading == old(isLoading) && modelReady == old(modelReady) && error == old(error)
      ensures detectedHandsCount == old(detectedHandsCount) && monitors == old(monitors)
      ensures frameScheduled == old(frameScheduled) && overlayHands == old(overlayHands)
      ensures overlayWidth == old(overlayWidth) && overlayHeight == old(overlayHeight)
    {
      if webcamActive {
        webcamActive := false;
      } else {
        if !modelReady {
          return;
        }
        webcamActive := true;
      }
    }

    /** The camera could not be opened: the error replaces any earlier one and
        the webcam flag reverts to off. */
    method CameraFailed()
      requires Valid()
      modifies this
      ensures Valid()
      ensures error == Some(CameraError) && !webcamActive
      ensures isLoading == old(isLoading) && modelReady == old(modelReady)
      ensures detectedHandsCount == old(detectedHandsCount) && monitors == old(monitors)
      ensures frameScheduled == old(frameScheduled) && overlayHands == old(overlayHands)
      ensures overlayWidth == old(overlayWidth) && overlayHeight == old(overlayHeight)
    {
      error := Some(CameraError);
      webcamActive := false;
    }

    /** Stopping capture: the pending frame callback is cancelled, both
        monitors are cleared and the count is reset. The overlay canvas is
        left as it was. */
    method Disable()
      requires Valid()
      modifies this
      ensures Valid()
      ensures !frameScheduled && monitors == [Cleared, Cleared] && detectedHandsCount == 0
      ensures isLoading == old(isLoading) && modelReady == old(modelReady)
      ensures webcamActive == old(webcamActive) && error == old(error)
      ensures overlayHands == old(overlayHands)
      ensures overlayWidth == old(overlayWidth) && overlayHeight == old(overlayHeight)
    {
      frameScheduled := false;
      monitors := [Cleared, Cleared];
      detectedHandsCount := 0;
    }

    /** The effect that runs whenever the webcam flag changes: the previous
        capture is torn down, and if the flag is now on the camera is
        requested; `cameraGranted` is the browser's answer. */
    method CaptureChanged(cameraGranted: bool)
      requires Valid()
      modifies this
      ensures Valid()
      ensures !frameScheduled && monitors == [Cleared, Cleared] && detectedHandsCount == 0
      ensures webcamActive == (old(webcamActive) && cameraGranted)
      ensures error == if old(webcamActive) && !cameraGranted then Some(CameraError) else old(error)
      ensures isLoading == old(isLoading) && modelReady == old(modelReady)
      ensures overlayHands == old(overlayHands)
      ensures overlayWidth == old(overlayWidth) && overlayHeight == old(overlayHeight)
    {
      Disable();
      if webcamActive && !cameraGranted {
        CameraFailed();
      }
    }

    /** The video has data: a frame callback is (re)scheduled. */
    method VideoLoaded()
      requires Valid()
      modifies this
      ensures Valid()
      ensures frameScheduled
      ensures isLoading == old(isLoading) && modelReady == old(modelReady)
      ensures webcamActive == old(webcamActive) && error == old(error)
      ensures detectedHandsCount == old(detectedHandsCount) && monitors == old(monitors)
      ensures overlayHands == old(overlayHands)
      ensures overlayWidth == old(overlayWidth) && overlayHeight == old(overlayHeight)
    {
      frameScheduled := true;
    }

    /** One run of the frame callback on a w-by-h video frame in which the
        engine found `hands`. Without a ready engine or an active webcam it
        does nothing and schedules nothing. Otherwise the overlay canvas is
        resized when its width differs from the video's, every hand is drawn
        on it, the count becomes the number of hands, monitor i shows hand i
        or is cleared, and the next frame is scheduled. */
    method Frame(hands: seq<Hand>, w: real, h: real)
      requires Valid() && NonEmptyHands(hands)
      modifies this
      ensures Valid()
      ensures isLoading == old(isLoading) && modelReady == old(modelReady)
      ensures webcamActive == old(webcamActive) && error == old(error)
      ensures !(old(modelReady) && old(webcamActive)) ==>
        !frameScheduled && detectedHandsCount == old(detectedHandsCount) &&
        monitors == old(monitors) && overlayHands == old(overlayHands) &&
        overlayWidth == old(overlayWidth) && overlayHeight == old(overlayHeight)
      ensures old(modelReady) && old(webcamActive) ==>
        frameScheduled && detectedHandsCount == |hands| &&
        monitors == MonitorsAfter(hands, w, h) && overlayHands == hands &&
        overlayWidth == w &&
        overlayHeight == (if old(overlayWidth) != w then h else old(overlayHeight))
    {
      if !modelReady || !webcamActive {
        frameScheduled := false;
        return;
      }
      if overlayWidth != w {
        overlayWidth := w;
        overlayHeight := h;
      }
      overlayHands := hands;
      detectedHandsCount := |hands|;
      for i := 0 to MonitorSlots
        invariant |monitors| == MonitorSlots
        invariant isLoading == old(isLoading) && modelReady == old(modelReady)
        invariant webcamActive == old(webcamActive) && error == old(error)
        invariant detectedHandsCount == |hands| && overlayHands == hands
        invariant overlayWidth == w && overlayHeight == (if old(overlayWidth) != w then h else old(overlayHeight))
        invariant forall j :: 0 <= j < i ==> monitors[j] == SlotView(hands, j, w, h)
      {
        if i < |hands| {
          var hand := hands[i];
          var minX, minY, maxX, maxY := BoundingBox(hand, w, h);
          var crop := CropOf(Box(minX, minY, maxX, maxY));
          monitors := monitors[i := Drawn(crop, RemapHand(hand, crop, w, h))];
        } else {
          monitors := monitors[i := Cleared];
        }
      }
      assert monitors == MonitorsAfter(hands, w, h);
      frameScheduled := true;
    }
  }
}
