/** The camera thread's control logic: the view settings changed by key
    presses, the zoom crop, and the one-slot command mailbox. The camera,
    the image effects and the window are not modelled; the keys the window
    reports are given as a sequence. */
module ImageThread {

  // ---------------------------------------------------------------------------
  // Keys

  /** waitKey's int result stored in a signed char: only its low byte counts,
      read as a two's-complement value. */
  function SignedChar(k: int): (c: int)
    ensures -128 <= c < 128 && (k - c) % 256 == 0
  {
    var b := k % 256;
    if b >= 128 then b - 256 else b
  }

  /** No key (-1) stays -1, and so does a key code whose low byte is 255;
      codes with the same low byte are the same key. */
  lemma SignedCharFacts(k: int, n: int)
    ensures SignedChar(-1) == -1 && SignedChar(255) == -1
    ensures SignedChar(k + 256 * n) == SignedChar(k)
    ensures 0 <= k < 128 ==> SignedChar(k) == k
  {
    assert (k + 256 * n) % 256 == k % 256;
  }

  const KeyZoomIn: int := '+' as int
  const KeyZoomOut: int := '-' as int
  const KeyMode: int := 'm' as int
  const KeyMore: int := 46
  const KeyLess: int := 44
  const KeyFlip: int := 'z' as int
  const KeyQuit: int := 'q' as int

  // ---------------------------------------------------------------------------
  // The view settings

  /** mode 1 is the plain picture, 2 edge overlay, 3 threshold. */
  datatype View = View(mode: int, zoom: int, edgeno: int, threshLev: int, threshMode: int)

  const Initial: View := View(1, 0, 50, 128, 0)

  /** One key press, the checks made in the order the thread makes them. Each
      pass handles one key, so the '.' and ',' guards read the mode as it
      stands after the 'm' check: the current mode. */
  function OnKey(v: View, key: int): View
  {
    var zoom1 := if key == KeyZoomIn && v.zoom < 9 then v.zoom + 1 else v.zoom;
    var zoom := if key == KeyZoomOut && zoom1 > 0 then zoom1 - 1 else zoom1;
    var mode :=
      if key == KeyMode && v.mode == 1 then 2
      else if key == KeyMode && v.mode == 2 then 3
      else if key == KeyMode && v.mode == 3 then 1
      else v.mode;
    var edge1 := if key == KeyMore && v.edgeno < 200 && mode == 2 then v.edgeno + 10 else v.edgeno;
    var edge := if key == KeyLess && edge1 > 30 && mode == 2 then edge1 - 10 else edge1;
    var lev1 := if key == KeyMore && v.threshLev < 220 && mode == 3 then v.threshLev + 10 else v.threshLev;
    var lev := if key == KeyLess && lev1 > 20 && mode == 3 then lev1 - 10 else lev1;
    var tmode :=
      if key == KeyFlip && v.threshMode == 1 && mode == 3 then 0
      else if key == KeyFlip && v.threshMode != 1 && mode == 3 then 1
      else v.threshMode;
    View(mode, zoom, edge, lev, tmode)
  }

  /** The ranges the settings keep from the initial view on. */
  predicate InRange(v: View)
  {
    && 1 <= v.mode <= 3
    && 0 <= v.zoom <= 9
    && 30 <= v.edgeno <= 200 && v.edgeno % 10 == 0
    && 18 <= v.threshLev <= 228 && v.threshLev % 10 == 8
    && (v.threshMode == 0 || v.threshMode == 1)
  }

  lemma InitialInRange()
    ensures InRange(Initial)
  {
  }

  /** Every key press keeps the settings in range. */
  lemma OnKeyInRange(v: View, key: int)
    requires InRange(v)
    ensures InRange(OnKey(v, key))
  {
  }

  /** '+' zooms in only below 9, '-' zooms out only above 0, nothing else touches the zoom. */
  lemma ZoomKeys(v: View, key: int)
    ensures OnKey(v, key).zoom ==
      if key == KeyZoomIn && v.zoom < 9 then v.zoom + 1
      else if key == KeyZoomOut && v.zoom > 0 then v.zoom - 1
      else v.zoom
  {
  }

  /** 'm' advances the mode 1 -> 2 -> 3 -> 1, one step per press, and changes nothing else. */
  lemma ModeCycle(v: View)
    requires 1 <= v.mode <= 3
    ensures OnKey(v, KeyMode) == v.(mode := if v.mode == 3 then 1 else v.mode + 1)
    ensures OnKey(OnKey(OnKey(v, KeyMode), KeyMode), KeyMode) == v
  {
  }

  /** In edge mode '.' and ',' move the edge threshold by 10 within its bounds, and leave the rest. */
  lemma EdgeKeys(v: View)
    requires v.mode == 2
    ensures OnKey(v, KeyMore) == v.(edgeno := if v.edgeno < 200 then v.edgeno + 10 else v.edgeno)
    ensures OnKey(v, KeyLess) == v.(edgeno := if v.edgeno > 30 then v.edgeno - 10 else v.edgeno)
  {
  }

  /** In threshold mode '.' and ',' move the threshold level by 10 within its bounds, and 'z' flips the threshold type. */
  lemma ThresholdKeys(v: View)
    requires v.mode == 3 && (v.threshMode == 0 || v.threshMode == 1)
    ensures OnKey(v, KeyMore) == v.(threshLev := if v.threshLev < 220 then v.threshLev + 10 else v.threshLev)
    ensures OnKey(v, KeyLess) == v.(threshLev := if v.threshLev > 20 then v.threshLev - 10 else v.threshLev)
    ensures OnKey(v, KeyFlip) == v.(threshMode := 1 - v.threshMode)
    ensures OnKey(OnKey(v, KeyFlip), KeyFlip) == v
  {
  }

  /** A key with no binding changes nothing. */
  lemma UnboundKeys(v: View, key: int)
    requires key !in {KeyZoomIn, KeyZoomOut, KeyMode, KeyMore, KeyLess, KeyFlip}
    ensures OnKey(v, key) == v
  {
  }

  // ---------------------------------------------------------------------------
  // The zoom crop

  datatype Rect = Rect(x: int, y: int, width: int, height: int)

  /** The region kept at zoom level `zoom`, before it is scaled back to full size. */
  function Crop(zoom: int): Rect
  {
    Rect(zoom * 95, zoom * 54, 1920 - zoom * 190, 1080 - zoom * 108)
  }

  /** For every zoom level the thread can reach, the crop is non-empty, lies
      within the 1920x1080 frame and is centred in it. */
  lemma CropInFrame(zoom: int)
    requires 0 <= zoom <= 9
    ensures var r := Crop(zoom);
      && r.width > 0 && r.height > 0 && r.x >= 0 && r.y >= 0
      && r.x + r.width <= 1920 && r.y + r.height <= 1080
      && r.x + r.width + r.x == 1920 && r.y + r.height + r.y == 1080
  {
  }

  /** A higher zoom level keeps a strictly smaller region. */
  lemma CropShrinks(zoom: int)
    ensures Crop(zoom + 1).width < Crop(zoom).width && Crop(zoom + 1).height < Crop(zoom).height
  {
  }

  // ---------------------------------------------------------------------------
  // The frame loop

  /** Where the key sequence leaves the view, whether 'q' ended the loop, and
      whether some pass reached the command check. */
  datatype Ran = Ran(view: View, quit: bool, checked: bool)

  /** The loop over the key results: no key skips the key handling; 'q' is
      handled like any key and then ends the loop before the command check;
      every other pass ends with the command check. */
  function Run(v: View, keys: seq<int>): (r: Ran)
    decreases |keys|
  {
    if keys == [] then Ran(v, false, false)
    else
      var key := SignedChar(keys[0]);
      if key != -1 && key == KeyQuit then Ran(OnKey(v, key), true, false)
      else
        var w := if key != -1 then OnKey(v, key) else v;
        var rest := Run(w, keys[1..]);
        Ran(rest.view, rest.quit, true)
  }

  /** The settings stay in range however many keys are pressed. */
  lemma {:induction false} RunInRange(v: View, keys: seq<int>)
    requires InRange(v)
    ensures InRange(Run(v, keys).view)
    decreases |keys|
  {
    if keys != [] {
      var key := SignedChar(keys[0]);
      OnKeyInRange(v, key);
      if !(key != -1 && key == KeyQuit) {
        RunInRange(if key != -1 then OnKey(v, key) else v, keys[1..]);
      }
    }
  }

  /** The loop ends through 'q' exactly when some key result's low byte is 'q'. */
  lemma {:induction false} RunQuits(v: View, keys: seq<int>)
    ensures Run(v, keys).quit <==> exists i :: 0 <= i < |keys| && SignedChar(keys[i]) == KeyQuit
    decreases |keys|
  {
    if keys != [] {
      var key := SignedChar(keys[0]);
      if !(key != -1 && key == KeyQuit) {
        RunQuits(if key != -1 then OnKey(v, key) else v, keys[1..]);
        assert forall i :: 1 <= i < |keys| ==> keys[i] == keys[1..][i - 1];
        if Run(v, keys).quit {
          var i :| 0 <= i < |keys[1..]| && SignedChar(keys[1..][i]) == KeyQuit;
          assert SignedChar(keys[i + 1]) == KeyQuit;
        }
      }
    }
  }

  /** Frames without a key leave the view alone (and still reach the command check). */
  lemma {:induction false} IdleFramesChangeNothing(v: View, keys: seq<int>)
    requires forall i :: 0 <= i < |keys| ==> SignedChar(keys[i]) == -1
    ensures Run(v, keys) == Ran(v, false, keys != [])
    decreases |keys|
  {
    if keys != [] {
      IdleFramesChangeNothing(v, keys[1..]);
    }
  }

  // ---------------------------------------------------------------------------
  // The command mailbox

  /** The one-slot mailbox and the commands the thread has reported so far. */
  datatype Mailbox = Mailbox(pending: bool, message: string, reported: seq<string>)

  /** send_cmd: a command is stored only when none is pending; otherwise it is dropped. */
  function Send(m: Mailbox, cmd: string): Mailbox
  {
    if m.pending then m else m.(pending := true, message := cmd)
  }

  /** The loop's check: a pending command is reported and the slot freed. */
  function Check(m: Mailbox): Mailbox
  {
    if m.pending then m.(pending := false, reported := m.reported + [m.message]) else m
  }

  /** While a command is pending, later ones are dropped: the first is the one reported. */
  lemma FirstCommandWins(m: Mailbox, a: string, b: string)
    requires !m.pending
    ensures Send(Send(m, a), b) == Send(m, a)
    ensures Check(Send(Send(m, a), b)).reported == m.reported + [a]
  {
  }

  /** After a check the slot is free, so the next command is accepted. */
  lemma CheckFreesSlot(m: Mailbox, cmd: string)
    ensures !Check(m).pending
    ensures Send(Check(m), cmd).message == cmd && Send(Check(m), cmd).pending
    ensures Check(Check(m)) == Check(m)
  {
  }

  /** With a check after every send, no command is dropped: all are reported, in order. */
  lemma {:induction false} ChecksReportOnce(m: Mailbox, cmds: seq<string>)
    requires !m.pending
    ensures SendAll(m, cmds).reported == m.reported + cmds
    decreases |cmds|
  {
    if cmds != [] {
      var m1 := Check(Send(m, cmds[0]));
      assert m1.reported == m.reported + [cmds[0]] && !m1.pending;
      ChecksReportOnce(m1, cmds[1..]);
      assert m.reported + [cmds[0]] + cmds[1..] == m.reported + cmds;
    }
  }

  /** Each command sent, followed by the loop's check. */
  function SendAll(m: Mailbox, cmds: seq<string>): Mailbox
    decreases |cmds|
  {
    if cmds == [] then m else SendAll(Check(Send(m, cmds[0])), cmds[1..])
  }

  // ---------------------------------------------------------------------------
  // The thread object

  class ImageThreadState {
    var cmdPending: bool
    var cmdMessage: string
    /** The commands reported on the console, in order. */
    var reported: seq<string>
    /** The application's global run flag, cleared by 'q'. */
    var appRunning: bool

    constructor (appRunning: bool)
      ensures !cmdPending && cmdMessage == "" && reported == [] && this.appRunning == appRunning
    {
      cmdPending := false;
      cmdMessage := "";
      reported := [];
      this.appRunning := appRunning;
    }

    function Box(): Mailbox
      reads this
    {
      Mailbox(cmdPending, cmdMessage, reported)
    }

    /** send_cmd. */
    method SendCmd(cmd: string)
      modifies this`cmdPending, this`cmdMessage
      ensures Box() == Send(old(Box()), cmd)
    {
      if !cmdPending {
        cmdPending := true;
        cmdMessage := cmd;
      }
    }

    /** The command check at the end of each pass of the frame loop. */
    method CheckCommand()
      modifies this`cmdPending, this`reported
      ensures Box() == Check(old(Box()))
    {
      if cmdPending {
        reported := reported + [cmdMessage];
        cmdPending := false;
      }
    }

    /** The key handling of one pass; `key` is already a signed char other than -1. */
    static method HandleKey(v: View, key: int) returns (w: View)
      ensures w == OnKey(v, key)
    {
      var mode, zoom, edgeno, threshLev, threshMode := v.mode, v.zoom, v.edgeno, v.threshLev, v.threshMode;
      if key == KeyZoomIn && zoom < 9 {
        zoom := zoom + 1;
      }
      if key == KeyZoomOut && zoom > 0 {
        zoom := zoom - 1;
      }
      if key == KeyMode && mode == 1 {
        mode := 2;
      } else if key == KeyMode && mode == 2 {
        mode := 3;
      } else if key == KeyMode && mode == 3 {
        mode := 1;
      }
      if key == KeyMore && edgeno < 200 && mode == 2 {
        edgeno := edgeno + 10;
      }
      if key == KeyLess && edgeno > 30 && mode == 2 {
        edgeno := edgeno - 10;
      }
      if key == KeyMore && threshLev < 220 && mode == 3 {
        threshLev := threshLev + 10;
      }
      if key == KeyLess && threshLev > 20 && mode == 3 {
        threshLev := threshLev - 10;
      }
      if key == KeyFlip && threshMode == 1 && mode == 3 {
        threshMode := 0;
      } else if key == KeyFlip && threshMode != 1 && mode == 3 {
        threshMode := 1;
      }
      w := View(mode, zoom, edgeno, threshLev, threshMode);
    }

    /** thread_handler over the key results of successive frames (the loop
        also ends when they run out, standing for cancel). Without a camera it
        returns at once. The final view settings are returned. */
    method ThreadHandler(cameraOk: bool, keys: seq<int>) returns (last: View)
      modifies this`cmdPending, this`reported, this`appRunning
      ensures !cameraOk ==> last == Initial && Box() == old(Box()) && appRunning == old(appRunning)
      ensures cameraOk ==>
        var r := Run(Initial, keys);
        && last == r.view
        && Box() == (if r.checked then Check(old(Box())) else old(Box()))
        && appRunning == (old(appRunning) && !r.quit)
    {
      last := Initial;
      if !cameraOk {
        return;
      }
      var k := 0;
      while k < |keys|
        invariant 0 <= k <= |keys|
        invariant var total := Run(Initial, keys); var rest := Run(last, keys[k..]);
          total.view == rest.view && total.quit == rest.quit && total.checked == (k > 0 || rest.checked)
        invariant Box() == (if k > 0 then Check(old(Box())) else old(Box()))
        invariant appRunning == old(appRunning)
        invariant cmdMessage == old(cmdMessage)
      {
        assert keys[k..][0] == keys[k] && keys[k..][1..] == keys[k + 1..];
        var key := SignedChar(keys[k]);
        if key != -1 {
          last := HandleKey(last, key);
          if key == KeyQuit {
            appRunning := false;
            return;
          }
        }
        CheckCommand();
        assert Check(Check(old(Box()))) == Check(old(Box()));
        k := k + 1;
      }
      assert keys[|keys|..] == [];
    }
  }
}
