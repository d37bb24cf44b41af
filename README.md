# Gesture challenge: a verified model of the capture and submit logic

The page offers two gesture challenges. In draw mode the user draws a stroke on a
surface. In click mode the user clicks five targets in any order. On completion
the gesture is serialised to text and hashed with keccak256. The page shows the
hash, and a button submits it to a server. Capture and submission are gated on a
browser wallet being connected.

This project models that logic as Dafny classes with methods, following the
handlers of the source:

- `gesture.dfy` (module `Gesture`): shared values. These are digests (`"0x"` and
  64 lower-case hex digits), points, pointer events, the surface box and the
  page's alerts as `Notice` tags.
- `json.dfy` (module `Json`): `JSON.stringify` of the click order, an array of
  small non-negative integers, written out concretely, and a reader for that
  text. Reading back the text of any order gives the order, so two orders give
  the same text only when they are the same order.
- `modes.dfy` (module `Modes`): `DrawMode`, the closure state `drawing`/`path`
  of one run of the drawing component's effect, and `ClickMode`, the refs
  `clickSequenceRef`/`circlesRef` with each target's `active` class. It also holds
  the sequence facts the click invariant rests on: a click order without
  repeats over `n` targets has at most `n` entries, and at `n` entries it names
  every target.
- `coordinator.dfy` (module `Coordinator`): `App`, which holds the state
  `mode`, `hash` and `walletConnected`. It models the mode buttons, the `onHash`
  callback, the wallet check, `connectWallet`, `submitGesture` and the main button.
- `scenarios.dfy` (module `Scenarios`): whole-page runs. Each starts from a fresh
  page and states what the page shows or sends afterwards.

keccak256 over UTF-8 bytes is the `const keccak: string -> Digest` of the page
and its components, a function about which nothing is assumed. The serialisation
of a stroke's points is `const serializePath: seq<Point> -> string`, also
abstract. The wallet provider's answers and the server's answer are method
parameters: `providerPresent`, `accounts`, `granted` and `serverAccepts`.

React behaviour that the model keeps:
- `setWalletConnected` with the value the flag already has re-runs nothing.
- A different value re-runs the mounted component's effect (dependency list
  `[onHash, walletConnected]`). For the drawing surface that means a fresh
  `DrawMode`. For the click component it means another `Setup`.
- Choosing the other mode mounts a fresh component. Pressing the button of the
  mode already shown only clears the hash, and the component keeps its state.

Behaviour of the code that the model keeps, including where it is not what
the code's own messages suggest:
- The click handler carries a "connect your wallet before clicking" alert
  (src/SEc.Modes.jsx:147-150), which suggests a click without a wallet is meant
  to do nothing. The flag it tests is the one captured by the setup run that
  created the target, and targets are only created by a run that saw a connected
  wallet, so the test always passes.
- A setup run that sees the wallet disconnected returns before clearing anything
  (src/SEc.Modes.jsx:113-116). Targets placed earlier stay clickable and can still
  complete the order and show a hash while no wallet is connected
  (`Scenarios.StaleTargetsAfterDisconnect`). Submission stays refused in that state.
- The press handler records the pressed point before any movement
  (src/SEc.Modes.jsx:44-47). A hashed stroke therefore always holds at least one
  point (`Modes.DrawMode.EndDrawing`): a press released without moving hashes a
  one-point stroke, never an empty one.
- The mode buttons set the mode unconditionally (src/Sec.App.jsx:154-167), but a
  component is only mounted afresh when the other mode is chosen. Pressing the
  button of the mode already shown keeps the mounted component and its state.
- Until a wallet has been connected, no surface can draw, no click target exists
  and no hash is shown. This is part of `Coordinator.App.Valid`, the invariant
  every page method keeps (`Scenarios.RefusedConnectCapturesNothing`).

## Model

| member | source | states |
|---|---|---|
| `Modes.GetPos` | src/SEc.Modes.jsx:25-36 | the point is the first touch contact's position when the event has one, else the mouse position, translated so that adding the surface's left/top gives back the viewport position |
| `Modes.TouchReadsAsMouse` | src/SEc.Modes.jsx:28-34 | a touch event is read exactly as a mouse event at its first contact's position |
| `Modes.GetPosRelative` | src/SEc.Modes.jsx:25-36 | moving the surface and the pointer by the same offset records the same point, because the box is read on every event |
| `Modes.DrawMode.constructor` | src/SEc.Modes.jsx:22-23 | a freshly mounted surface is not drawing, has an empty path and keeps the wallet flag of its effect run |
| `Modes.DrawMode.StartDrawing` | src/SEc.Modes.jsx:38-51 | without a wallet: the "connect before drawing" notice, and `drawing` and `path` keep their values; with one: drawing, and the path is exactly the pressed point, earlier points discarded |
| `Modes.DrawMode.Draw` | src/SEc.Modes.jsx:53-59 | not drawing: nothing changes; drawing: exactly one point, the event's position, is appended and the earlier points are kept in order |
| `Modes.DrawMode.EndDrawing` | src/SEc.Modes.jsx:61-70 | not drawing: nothing is emitted; drawing: drawing stops and exactly one hash is emitted, `keccak(serializePath(path))`, for a path of at least one point on a surface with a wallet; a second release emits nothing |
| `Modes.DistinctInRangeBounded` | src/SEc.Modes.jsx:151-157 | a click order without repeats over n targets has at most n entries |
| `Modes.CompleteSequenceCoversAll` | src/SEc.Modes.jsx:157 | a click order without repeats over n targets that has n entries contains every target index |
| `Modes.ClickMode.constructor` | src/SEc.Modes.jsx:109-111 | on mounting, the click order and the target list are empty |
| `Modes.ClickMode.Setup` | src/SEc.Modes.jsx:113-122 | without a wallet nothing changes; with one the order is emptied and exactly five targets exist, target k with index k and none active; the click invariant holds after either |
| `Modes.ClickMode.Click` | src/SEc.Modes.jsx:146-165 | an active target changes neither the order nor the targets and emits nothing; an inactive one becomes active and its index is appended; a hash is emitted exactly when the order grows to five, and it is keccak of the order's JSON array text; the order stays without repeats, in range and at most five long, with at most one emission per setup |
| `Modes.ClickMode.CompleteMeansAllActive` | src/SEc.Modes.jsx:151-157 | once the order has five entries every target is active, so no later click emits again before the next setup |
| `Json.Decimal` | src/SEc.Modes.jsx:158 | the number text is non-empty, all digits, and has no leading zero |
| `Json.DecimalRoundTrip` | src/SEc.Modes.jsx:158 | reading the digits of a number's text gives the number back |
| `Json.DecimalInjective` | src/SEc.Modes.jsx:158 | two numbers have the same text exactly when they are equal |
| `Json.IntArrayRoundTrip` | src/SEc.Modes.jsx:158 | reading back the JSON text of any click order (`[` + comma-joined decimals + `]`) gives exactly that order |
| `Json.IntArrayInjective` | src/SEc.Modes.jsx:158-162 | two click orders have the same hashed text exactly when they are the same order |
| `Json.ClickOrderTexts` | src/SEc.Modes.jsx:158 | the orders 2,0,4,1,3 and 0,1,2,3,4 serialise to "[2,0,4,1,3]" and "[0,1,2,3,4]", which differ |
| `Coordinator.App.constructor` | src/Sec.App.jsx:7-9 | the page starts in draw mode with an empty hash and no wallet |
| `Coordinator.App.SwitchMode` | src/Sec.App.jsx:152-169 | either mode button sets the mode and empties the hash whatever it was; the other mode's component is mounted fresh (an idle drawing surface, or an empty order with five targets exactly when a wallet is connected), while the current mode's button keeps the mounted one |
| `Coordinator.App.OnHash` | src/Sec.App.jsx:172-176 | the callback given to both components sets the hash to the emitted value and nothing else; it is reached only through an emission, which needs a wallet to have been connected |
| `Coordinator.App.EndStroke` | src/Sec.App.jsx:173 | a release on the mounted surface emits the stroke's hash as the drawing surface states, and the page then shows exactly that hash; with nothing emitted the hash is kept |
| `Coordinator.App.ClickTarget` | src/Sec.App.jsx:175 | a click on the mounted click component updates the order as the component states, and when the order completes the page shows the emitted hash of its JSON text |
| `Coordinator.App.SetWalletConnected` | src/Sec.App.jsx:9 | the flag takes the new value and the mode and hash are kept; an unchanged value re-runs nothing; a changed one mounts a fresh idle drawing surface, or re-runs the click setup, which places five fresh targets on a connect and changes nothing on a disconnect |
| `Coordinator.App.CheckWalletConnection` | src/Sec.App.jsx:11-21 | with a provider whose account listing succeeds, the flag is set to "at least one account" with the re-run rules of `SetWalletConnected` (an account switch that keeps the flag re-runs nothing); without a provider, or when the listing fails, nothing changes |
| `Coordinator.App.ConnectWallet` | src/Sec.App.jsx:109-120 | without a provider: the install notice and nothing changes; with one no notice, a granted request sets the flag to true with the re-run rules of `SetWalletConnected`, and a refused one changes nothing |
| `Coordinator.App.Submit` | src/Sec.App.jsx:122-139 | no wallet: the "connect your wallet first" notice and no request, whatever the hash; wallet and empty hash: the "no gesture hash" notice and no request; a request is made exactly when a wallet is connected and the hash is non-empty, it is the one POST to the submit URL carrying the current hash, and the notice is success or error by the server's answer |
| `Coordinator.App.PressMainButton` | src/Sec.App.jsx:181-187 | with a wallet the button submits and changes nothing: the "no gesture hash" notice when no hash is shown, otherwise one POST of the shown hash and the success or error notice by the server's answer; without one it only connects as `ConnectWallet` states and sends nothing |
| `Coordinator.SubmitAfterCapture` | src/Sec.App.jsx:127-132 | on a connected page an emitted hash, once shown, is always submitted in one request carrying it, never meeting the "no hash" notice |
| `Scenarios.StrokeEmitsOnce` | src/SEc.Modes.jsx:38-70 | press, move, release, release: the first release emits keccak of the serialised two-point stroke and the page shows it; the second emits nothing |
| `Scenarios.DrawingNeedsWallet` | src/SEc.Modes.jsx:38-42 | without a wallet a press gives only the notice, and a release emits nothing and leaves the hash empty |
| `Scenarios.ClickAll` | src/SEc.Modes.jsx:146-165 | clicking five distinct targets after a fresh setup makes the order exactly the click order, and the page shows keccak of its JSON text |
| `Scenarios.ClickInOrder` | src/SEc.Modes.jsx:155-164 | on a connected page in click mode, any order of the five targets ends with keccak of that order's JSON text shown |
| `Scenarios.ClickOrderMatters` | src/SEc.Modes.jsx:157-164 | the orders 2,0,4,1,3 and 0,1,2,3,4 show keccak("[2,0,4,1,3]") and keccak("[0,1,2,3,4]") respectively |
| `Scenarios.StaleTargetsAfterDisconnect` | src/SEc.Modes.jsx:113-116 | targets placed while connected still complete the order and show a hash after the wallet disconnects |
| `Scenarios.RefusedConnectCapturesNothing` | src/Sec.App.jsx:109-120 | a page whose connect request was refused shows no click target in click mode and no hash |

## Left out

- keccak256 and the UTF-8 encoding come from the wallet library. They are the abstract `keccak` function, and none of their cryptographic properties are modelled. That two orders give different hashes is therefore stated only for the hashed texts.
- Path serialisation (`JSON.stringify` of floating-point point objects) is the abstract `serializePath`. Coordinates are exact reals, so floating-point rounding in `clientX - rect.left` is not modelled.
- Canvas drawing, the resize handler, the rotation animation, target styling and random target placement are rendering only. So are listener registration and removal, and the JSX markup.
- The wallet provider, its `accountsChanged` subscription and the axios POST are I/O. Their results are method parameters. The `await`s are modelled as completing in order, without interleaving. Two submissions in flight at once are not modelled.
- `console.log` and `console.error` output is not modelled. Alerts are `Notice` values.
- The click handler's "connect before clicking" alert is not modelled, because it can never fire. The flag it tests is captured by a setup run that saw a connected wallet.
- The `onHash &&` guard is not modelled, because the page always passes `setHash`.
- `App` keeps an instance of the capture component that is not mounted. Only the instance matching `mode` is meant as the live one.
- `Json.IntArray` writes every integer in plain decimal. JavaScript writes integers of 10^21 and above in exponent form, which a click order, whose entries are below five, never reaches.
- CheckWalletConnection: a failing `listAccounts()` is the `accounts == None` case and changes nothing. The unhandled promise rejection it raises is not modelled.
