/** The extension on `AVCaptureVideoOrientation` that converts between capture
    orientations and user-interface orientations. */
module Orientation {

  /** `AVCaptureVideoOrientation`. */
  datatype VideoOrientation = Portrait | PortraitUpsideDown | LandscapeRight | LandscapeLeft

  /** `UIInterfaceOrientation`: the four device orientations plus `Unknown`. */
  datatype InterfaceOrientation = Unknown | IPortrait | IPortraitUpsideDown | ILandscapeLeft | ILandscapeRight

  /** The computed property `uiInterfaceOrientation`: every capture orientation has
      an interface orientation of the same name, never `Unknown`, and distinct capture
      orientations map to distinct interface orientations. */
  function InterfaceOf(o: VideoOrientation): (u: InterfaceOrientation)
    ensures !u.Unknown?
    ensures o.Portrait? <==> u.IPortrait?
    ensures o.PortraitUpsideDown? <==> u.IPortraitUpsideDown?
    ensures o.LandscapeLeft? <==> u.ILandscapeLeft?
  {
    match o
    case LandscapeLeft => ILandscapeLeft
    case LandscapeRight => ILandscapeRight
    case Portrait => IPortrait
    case PortraitUpsideDown => IPortraitUpsideDown
  }

  /** The initializer `init(ui:)`: inverts `InterfaceOf` on the four known
      orientations and falls back to `Portrait` for anything else. */
  function FromInterface(ui: InterfaceOrientation): (o: VideoOrientation)
    ensures ui.Unknown? ==> o == Portrait
    ensures !ui.Unknown? ==> InterfaceOf(o) == ui
  {
    match ui
    case ILandscapeRight => LandscapeRight
    case ILandscapeLeft => LandscapeLeft
    case IPortrait => Portrait
    case IPortraitUpsideDown => PortraitUpsideDown
    case Unknown => Portrait
  }

  /** Distinct capture orientations have distinct interface orientations. */
  lemma InterfaceOfInjective(o: VideoOrientation, o': VideoOrientation)
    ensures InterfaceOf(o) == InterfaceOf(o') ==> o == o'
  {
  }

  /** Converting a capture orientation to the interface and back is the identity. */
  lemma RoundTrip(o: VideoOrientation)
    ensures FromInterface(InterfaceOf(o)) == o
  {
  }

  /** Every interface orientation other than `Unknown` is hit by exactly one capture
      orientation, so the two conversions are mutually inverse on the known ones. */
  lemma InterfaceRoundTrip(u: InterfaceOrientation)
    ensures u.Unknown? <==> (forall o :: InterfaceOf(o) != u)
    ensures !u.Unknown? ==> InterfaceOf(FromInterface(u)) == u
  {
    if !u.Unknown? {
      assert InterfaceOf(FromInterface(u)) == u;
    }
  }
}
