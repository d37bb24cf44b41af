/** Whole-page runs of the model: a fresh page driven through a fixed series of
    events, with what the page then shows or sends stated as postconditions. */
module Scenarios {
  import opened Gesture
  import opened Modes
  import opened Coordinator
  import Json

  /** Connect, press, move, release, release again: the first release shows the
      hash of the two-point stroke, the second emits nothing. */
  method StrokeEmitsOnce(keccak: Hasher, serializePath: seq<Point> -> string,
                         down: PointerEvent, move: PointerEvent, rect: Rect)
    returns (first: Option<Digest>, second: Option<Digest>, shown: string)
    ensures first == Some(keccak(serializePath([GetPos(down, rect), GetPos(move, rect)])))
    ensures second == None
    ensures shown == first.value
  {
    var app := new App(keccak, serializePath);
    app.CheckWalletConnection(true, Some(["0x01"]));
    var notice := app.draw.StartDrawing(down, rect);
    app.draw.Draw(move, rect);
    assert app.draw.path == [GetPos(down, rect), GetPos(move, rect)];
    first := app.EndStroke();
    second := app.EndStroke();
    shown := app.hash;
  }

  /** Without a wallet a press only raises the notice, and a release emits nothing. */
  method DrawingNeedsWallet(keccak: Hasher, serializePath: seq<Point> -> string,
                            down: PointerEvent, rect: Rect)
    returns (notice: Option<Notice>, emitted: Option<Digest>, shown: string)
    ensures notice == Some(ConnectBeforeDrawing)
    ensures emitted == None && shown == ""
  {
    var app := new App(keccak, serializePath);
    notice := app.draw.StartDrawing(down, rect);
    emitted := app.EndStroke();
    shown := app.hash;
  }

  /** Clicks the targets of a page in click mode in the given order, starting
      from a fresh setup, and leaves the hash the page then shows. */
  method ClickAll(app: App, order: seq<nat>)
    requires app.Valid() && app.mode == Click
    requires app.click.sequence == [] && |app.click.circles| == NumCircles
    requires |order| == NumCircles && Distinct(order) && InRange(order, NumCircles)
    modifies app, app.click
    ensures app.Valid() && app.click.sequence == order
    ensures app.hash == app.keccak(Json.IntArray(order))
    ensures app.walletConnected == old(app.walletConnected)
  {
    var k := 0;
    while k < |order|
      invariant 0 <= k <= |order|
      invariant app.Valid() && app.mode == Click && app.click == old(app.click)
      invariant |app.click.circles| == NumCircles
      invariant app.click.sequence == order[..k]
      invariant k == NumCircles ==> app.hash == app.keccak(Json.IntArray(order))
      invariant app.walletConnected == old(app.walletConnected)
    {
      assert order[k] !in order[..k];
      var h := app.ClickTarget(order[k]);
      assert order[..k + 1] == order[..k] + [order[k]];
      assert k + 1 == |order| ==> order[..k + 1] == order;
      k := k + 1;
    }
    assert order[..k] == order;
  }

  /** Clicks the five targets of a connected page's click mode in the given order
      and returns the hash shown afterwards. */
  method ClickInOrder(keccak: Hasher, serializePath: seq<Point> -> string, order: seq<nat>)
    returns (shown: string)
    requires |order| == NumCircles && Distinct(order) && InRange(order, NumCircles)
    ensures shown == keccak(Json.IntArray(order))
  {
    var app := new App(keccak, serializePath);
    app.CheckWalletConnection(true, Some(["0x01"]));
    app.SwitchMode(Click);
    ClickAll(app, order);
    shown := app.hash;
  }

  /** Two click orders over the same five targets hash two different texts. */
  method ClickOrderMatters(keccak: Hasher, serializePath: seq<Point> -> string)
    returns (h1: string, h2: string)
    ensures h1 == keccak("[2,0,4,1,3]") && h2 == keccak("[0,1,2,3,4]")
  {
    Json.ClickOrderTexts();
    h1 := ClickInOrder(keccak, serializePath, [2, 0, 4, 1, 3]);
    h2 := ClickInOrder(keccak, serializePath, [0, 1, 2, 3, 4]);
  }

  /** The targets placed while a wallet was connected stay clickable after it
      disconnects: the setup run that sees the disconnect returns before clearing
      them, so completing the order still shows a hash while no wallet is connected. */
  method StaleTargetsAfterDisconnect(keccak: Hasher, serializePath: seq<Point> -> string)
    returns (connected: bool, shown: string)
    ensures !connected
    ensures shown == keccak(Json.IntArray([0, 1, 2, 3, 4]))
  {
    var app := new App(keccak, serializePath);
    app.CheckWalletConnection(true, Some(["0x01"]));
    app.SwitchMode(Click);
    app.CheckWalletConnection(true, Some([]));
    ClickAll(app, [0, 1, 2, 3, 4]);
    connected := app.walletConnected;
    shown := app.hash;
  }

  /** A page whose connect request was refused has no targets in click mode and
      shows no hash: nothing can be captured before a wallet is connected. */
  method RefusedConnectCapturesNothing(keccak: Hasher, serializePath: seq<Point> -> string)
    returns (targets: nat, shown: string)
    ensures targets == 0 && shown == ""
  {
    var app := new App(keccak, serializePath);
    app.SwitchMode(Click);
    var notice := app.ConnectWallet(true, false);
    targets := |app.click.circles|;
    shown := app.hash;
  }
}
