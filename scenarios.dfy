/**
 * Client-side runs of a Session, showing what the method contracts of
 * HandDetector.Session guarantee for the component's usual event sequences.
 */
module SessionScenarios {
  import opened HandGeometry
  import opened HandDetector

  /** The engine fails to load: the error is shown, loading ends, and the
      start button cannot switch the webcam on. */
  method LoadFailureKeepsCameraOff() returns (s: Session)
    ensures s.Valid()
    ensures !s.isLoading && !s.webcamActive && s.error == Some(ModelLoadError)
  {
    s := new Session();
    s.LoadFailed();
    s.Toggle();
  }

  /** The camera is refused: the webcam flag reverts and the error is shown;
      the user may then try again. */
  method CameraFailureAllowsRetry() returns (s: Session)
    ensures s.Valid()
    ensures s.webcamActive && s.error == Some(CameraError)
  {
    s := new Session();
    s.LoadSucceeded();
    s.Toggle();
    s.CaptureChanged(false);
    assert !s.webcamActive && s.error == Some(CameraError);
    s.CaptureChanged(true);
    s.Toggle();
  }

  /** Two hands are shown on the two monitors; stopping the webcam clears
      both, resets the count and leaves no frame callback pending. */
  method StopClearsMonitors(first: Hand, second: Hand, w: real, h: real) returns (s: Session)
    requires |first| > 0 && |second| > 0
    ensures s.Valid()
    ensures !s.webcamActive && !s.frameScheduled
    ensures s.detectedHandsCount == 0 && s.monitors == [Cleared, Cleared]
  {
    s := new Session();
    s.LoadSucceeded();
    s.Toggle();
    s.CaptureChanged(true);
    s.VideoLoaded();
    s.Frame([first, second], w, h);
    assert s.detectedHandsCount == 2 && s.monitors[0].Drawn? && s.monitors[1].Drawn?;
    assert s.frameScheduled;
    s.Toggle();
    s.CaptureChanged(true);
  }
}
