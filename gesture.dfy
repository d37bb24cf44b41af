/** Values shared by the two capture components and the page that hosts them. */
module Gesture {

  datatype Option<+T> = None | Some(value: T)

  predicate IsLowerHex(c: char) {
    '0' <= c <= '9' || 'a' <= c <= 'f'
  }

  /** The text form of a keccak256 digest as the wallet library returns it:
      "0x" followed by 64 lower-case hexadecimal digits. */
  predicate IsHexDigest(s: string) {
    |s| == 66 && s[0] == '0' && s[1] == 'x' &&
    forall k :: 2 <= k < |s| ==> IsLowerHex(s[k])
  }

  type Digest = s: string | IsHexDigest(s)
    witness "0x" + seq(64, _ => '0')

  /** keccak256 over the UTF-8 bytes of a text, as a function supplied by the caller. */
  type Hasher = string -> Digest

  /** A surface-local position. */
  datatype Point = Point(x: real, y: real)

  /** A viewport position carried by a mouse event or by one touch contact. */
  datatype Touch = Touch(clientX: real, clientY: real)

  /** A pointer event: mouse events carry no touches, touch events carry the
      contacts in order. */
  datatype PointerEvent = PointerEvent(clientX: real, clientY: real, touches: seq<Touch>)

  /** The drawing surface's bounding box, read afresh on every event. */
  datatype Rect = Rect(left: real, top: real)

  /** The alerts the page shows. */
  datatype Notice =
    | ConnectBeforeDrawing   // "Please connect your wallet before drawing!"
    | ConnectWalletFirst     // "Please connect your wallet first."
    | NoGestureHash          // "No gesture hash computed."
    | GestureSubmitted       // "Gesture submitted successfully!"
    | SubmitFailed           // "Error submitting gesture."
    | InstallMetaMask        // "Please install MetaMask!"
}
