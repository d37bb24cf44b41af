/** The page that hosts the capture components: it owns the selected mode, the
    last emitted hash and the wallet flag, and submits the hash to the server. */
module Coordinator {
  import opened Gesture
  import opened Modes

  datatype Mode = Draw | Click

  const SubmitUrl: string := "http://localhost:5000/submit-gesture"

  /** The one network call the page makes: a POST whose JSON body is {hash}. */
  datatype Request = Post(url: string, hash: string)

  class App {
    const keccak: Hasher
    const serializePath: seq<Point> -> string
    var mode: Mode
    var hash: string
    var walletConnected: bool
    /** The drawing surface; it is the mounted component while mode is Draw. */
    var draw: DrawMode
    /** The click targets; they are the mounted component while mode is Click. */
    var click: ClickMode
    /** Whether the wallet flag has ever been true on this page. */
    ghost var everConnected: bool

    /** The components hash with the page's hasher; the mounted drawing surface
        saw the current wallet flag; the click component has its targets whenever
        it is mounted with a wallet; the hash is empty or a digest. Until a wallet
        has been connected no surface can draw, no target exists and no hash is
        shown. */
    ghost predicate Valid()
      reads this, draw, click
    {
      draw.Valid() && click.Valid() &&
      draw.keccak == keccak && draw.serializePath == serializePath &&
      click.keccak == keccak &&
      (mode == Draw ==> draw.walletConnected == walletConnected) &&
      (mode == Click && walletConnected ==> |click.circles| == NumCircles) &&
      (hash == "" || IsHexDigest(hash)) &&
      (walletConnected ==> everConnected) &&
      (!everConnected ==> !draw.walletConnected && click.circles == [] && hash == "")
    }

    /** The wallet flag has been set to b, with React's rules for the effects that
        depend on it: an unchanged value re-runs nothing; a changed one replaces the
        mounted drawing surface, or re-runs the mounted click component's setup,
        which places fresh targets on a connect and clears nothing on a disconnect.
        The mode and the shown hash are kept. */
    twostate predicate WalletFlagSet(b: bool)
      reads this, draw, click
    {
      walletConnected == b && mode == old(mode) && hash == old(hash) &&
      everConnected == (old(everConnected) || b) &&
      click == old(click) &&
      (b == old(walletConnected) ==> draw == old(draw) && unchanged(click)) &&
      (b != old(walletConnected) && mode == Draw ==>
        fresh(draw) && unchanged(click) && !draw.drawing && draw.path == []) &&
      (b != old(walletConnected) && mode == Click ==> draw == old(draw)) &&
      (b != old(walletConnected) && mode == Click && b ==>
        click.sequence == [] && |click.circles| == NumCircles) &&
      (!b ==> unchanged(click))
    }

    /** The first render: draw mode, no hash, no wallet, a fresh drawing surface. */
    constructor (keccak: Hasher, serializePath: seq<Point> -> string)
      ensures Valid()
      ensures this.keccak == keccak && this.serializePath == serializePath
      ensures mode == Draw && hash == "" && !walletConnected && !everConnected
      ensures fresh(draw) && fresh(click)
      ensures !draw.drawing && draw.path == []
    {
      this.keccak := keccak;
      this.serializePath := serializePath;
      mode := Draw;
      hash := "";
      walletConnected := false;
      everConnected := false;
      draw := new DrawMode(false, keccak, serializePath);
      click := new ClickMode(keccak);
    }

    /** A mode button: the hash is cleared whatever it was; choosing the other mode
        mounts a fresh component, choosing the current one keeps the mounted one. */
    method SwitchMode(m: Mode)
      requires Valid()
      modifies this
      ensures Valid()
      ensures mode == m && hash == "" && walletConnected == old(walletConnected)
      ensures everConnected == old(everConnected)
      ensures m == old(mode) ==> draw == old(draw) && click == old(click)
      ensures m != old(mode) && m == Draw ==>
        fresh(draw) && click == old(click) && !draw.drawing && draw.path == []
      ensures m != old(mode) && m == Click ==>
        fresh(click) && draw == old(draw) && click.sequence == [] &&
        |click.circles| == (if walletConnected then NumCircles else 0)
    {
      if m != mode {
        if m == Draw {
          draw := new DrawMode(walletConnected, keccak, serializePath);
        } else {
          click := new ClickMode(keccak);
          click.Setup(walletConnected);
        }
      }
      mode := m;
      hash := "";
    }

    /** The onHash callback handed to both components. Its only callers are the
        components' emissions, which happen only once a wallet has been connected
        (EndStroke and ClickTarget prove this for each call). */
    method OnHash(h: Digest)
      requires Valid() && everConnected
      modifies this
      ensures Valid()
      ensures hash == h
      ensures mode == old(mode) && walletConnected == old(walletConnected)
      ensures everConnected == old(everConnected)
      ensures draw == old(draw) && click == old(click)
    {
      hash := h;
    }

    /** Pointer up on the mounted drawing surface, with the emitted hash shown. */
    method EndStroke() returns (emitted: Option<Digest>)
      requires Valid() && mode == Draw
      modifies this, draw
      ensures Valid()
      ensures mode == old(mode) && walletConnected == old(walletConnected)
      ensures everConnected == old(everConnected)
      ensures draw == old(draw) && click == old(click)
      ensures !draw.drawing && draw.path == old(draw.path)
      ensures emitted == (if old(draw.drawing) then Some(keccak(serializePath(old(draw.path)))) else None)
      ensures hash == (if emitted.Some? then emitted.value else old(hash))
      ensures emitted.Some? ==> walletConnected
    {
      emitted := draw.EndDrawing();
      if emitted.Some? {
        OnHash(emitted.value);
      }
    }

    /** A click on target i of the mounted click component, with the emitted hash shown. */
    method ClickTarget(i: nat) returns (emitted: Option<Digest>)
      requires Valid() && mode == Click
      requires i < |click.circles|
      modifies this, click
      ensures Valid()
      ensures mode == old(mode) && walletConnected == old(walletConnected)
      ensures everConnected == old(everConnected)
      ensures draw == old(draw) && click == old(click)
      ensures old(click.circles[i].active) ==>
        click.sequence == old(click.sequence) && click.circles == old(click.circles)
      ensures !old(click.circles[i].active) ==>
        click.sequence == old(click.sequence) + [i] &&
        click.circles == old(click.circles)[i := Circle(i, true)]
      ensures emitted.Some? <==> |old(click.sequence)| < NumCircles == |click.sequence|
      ensures emitted.Some? ==> emitted.value == keccak(Json.IntArray(click.sequence))
      ensures hash == (if emitted.Some? then emitted.value else old(hash))
    {
      emitted := click.Click(i);
      if emitted.Some? {
        OnHash(emitted.value);
      }
    }

    /** A new value for the wallet flag (setWalletConnected). */
    method SetWalletConnected(b: bool)
      requires Valid()
      modifies this, click
      ensures Valid()
      ensures WalletFlagSet(b)
    {
      if b {
        everConnected := true;
      }
      if b == walletConnected {
        return;
      }
      walletConnected := b;
      if mode == Draw {
        draw := new DrawMode(b, keccak, serializePath);
      } else {
        click.Setup(b);
      }
    }

    /** The check run on mount and on every change of the wallet's accounts. With
        a provider whose account listing succeeds, the flag becomes "at least one
        account"; with no provider, or a listing that fails (`accounts` is None:
        the awaited promise rejects and nothing after it runs), nothing changes. */
    method CheckWalletConnection(providerPresent: bool, accounts: Option<seq<string>>)
      requires Valid()
      modifies this, click
      ensures Valid()
      ensures providerPresent && accounts.Some? ==> WalletFlagSet(|accounts.value| > 0)
      ensures !providerPresent || accounts.None? ==> WalletFlagSet(old(walletConnected))
    {
      if providerPresent && accounts.Some? {
        SetWalletConnected(|accounts.value| > 0);
      }
    }

    /** The connect request: without a provider the page asks to install one;
        otherwise the flag is set only when the wallet grants the request. */
    method ConnectWallet(providerPresent: bool, granted: bool) returns (notice: Option<Notice>)
      requires Valid()
      modifies this, click
      ensures Valid()
      ensures notice == (if providerPresent then None else Some(InstallMetaMask))
      ensures providerPresent && granted ==> WalletFlagSet(true)
      ensures !(providerPresent && granted) ==> WalletFlagSet(old(walletConnected))
    {
      notice := None;
      if providerPresent {
        if granted {
          SetWalletConnected(true);
        }
      } else {
        notice := Some(InstallMetaMask);
      }
    }

    /** The submit handler. It refuses without a wallet, then without a hash; else
        it makes exactly one request carrying the current hash and reports the
        server's answer, with no retry. `serverAccepts` is that answer. */
    method Submit(serverAccepts: bool) returns (notice: Notice, request: Option<Request>)
      ensures !walletConnected ==> notice == ConnectWalletFirst && request == None
      ensures walletConnected && hash == "" ==> notice == NoGestureHash && request == None
      ensures request.Some? <==> walletConnected && hash != ""
      ensures request.Some? ==>
        request.value == Post(SubmitUrl, hash) &&
        notice == (if serverAccepts then GestureSubmitted else SubmitFailed)
    {
      if !walletConnected {
        return ConnectWalletFirst, None;
      }
      if hash == "" {
        return NoGestureHash, None;
      }
      request := Some(Post(SubmitUrl, hash));
      notice := if serverAccepts then GestureSubmitted else SubmitFailed;
    }

    /** The button below the hash: it submits when a wallet is connected and
        connects one otherwise. */
    method PressMainButton(providerPresent: bool, granted: bool, serverAccepts: bool)
      returns (notice: Option<Notice>, request: Option<Request>)
      requires Valid()
      modifies this, click
      ensures Valid()
      ensures old(walletConnected) ==>
        WalletFlagSet(true) &&
        notice == Some(if hash == "" then NoGestureHash
                       else if serverAccepts then GestureSubmitted else SubmitFailed) &&
        request == (if hash == "" then None else Some(Post(SubmitUrl, hash)))
      ensures !old(walletConnected) ==>
        WalletFlagSet(providerPresent && granted) && request == None &&
        notice == (if providerPresent then None else Some(InstallMetaMask))
    {
      if walletConnected {
        var n;
        n, request := Submit(serverAccepts);
        notice := Some(n);
      } else {
        notice := ConnectWallet(providerPresent, granted);
        request := None;
      }
    }
  }

  /** A connected page that has just shown an emitted hash always submits it:
      a captured gesture never meets the "no hash" notice. */
  method SubmitAfterCapture(app: App, h: Digest, serverAccepts: bool)
    returns (notice: Notice, request: Option<Request>)
    requires app.Valid() && app.walletConnected
    modifies app
    ensures request == Some(Post(SubmitUrl, h))
    ensures notice == (if serverAccepts then GestureSubmitted else SubmitFailed)
  {
    app.OnHash(h);
    notice, request := app.Submit(serverAccepts);
  }
}
