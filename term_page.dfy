/**
 * The terminal page: how it turns the binary strings it receives into
 * bytes for the terminal, maps cursor shapes, falls back to an 80x24
 * terminal when fitting fails, waits a bounded number of times for the
 * native bridge object, and runs the screensaver around the matrix rain.
 *
 * JavaScript strings are sequences of UTF-16 code units. Timers are
 * modelled by what they would run: a pending screensaver timer is its
 * delay, and its firing is a method of its own.
 */
module TermPage {
  import opened Base
  import Rain

  // ---------------------------------------------------------------------
  // Binary strings.

  /** What `Uint8Array` keeps of each `charCodeAt(i)`: the low 8 bits. */
  function LowBytes(str: seq<CodeUnit>): (bytes: seq<Byte>)
    ensures |bytes| == |str|
    ensures forall i :: 0 <= i < |str| ==> bytes[i] == str[i] % 256
  {
    seq(|str|, i requires 0 <= i < |str| => str[i] % 256)
  }

  /** `strToUint8Array(str)`: a new array as long as the string, filled code unit by code unit. */
  method StrToUint8Array(str: seq<CodeUnit>) returns (buf: array<Byte>)
    ensures fresh(buf)
    ensures buf[..] == LowBytes(str)
  {
    buf := new Byte[|str|];
    var i := 0;
    while i < |str|
      modifies buf
      invariant 0 <= i <= |str|
      invariant forall k :: 0 <= k < i ==> buf[k] == str[k] % 256
    {
      buf[i] := str[i] % 256;
      i := i + 1;
    }
  }

  /** The binary string a sender builds from bytes: one code unit per byte. */
  function BinaryString(bytes: seq<Byte>): (str: seq<CodeUnit>)
    ensures |str| == |bytes|
  {
    seq(|bytes|, i requires 0 <= i < |bytes| => bytes[i] as CodeUnit)
  }

  /** Bytes sent as a binary string come back unchanged. */
  lemma BinaryStringRoundTrip(bytes: seq<Byte>)
    ensures LowBytes(BinaryString(bytes)) == bytes
  {
  }

  /** A string whose code units are all below 256 is a binary string, and converting it loses nothing. */
  lemma BinaryStringsAreExact(str: seq<CodeUnit>)
    requires forall i :: 0 <= i < |str| ==> str[i] < 256
    ensures BinaryString(LowBytes(str)) == str
  {
  }

  /**
   * Any other code unit loses its high bits: two strings convert to the
   * same bytes exactly when they agree code unit by code unit modulo 256,
   * so a string holding a code unit of 256 or more does not survive the
   * conversion.
   */
  lemma WideCodeUnitsWrap(s: seq<CodeUnit>, t: seq<CodeUnit>)
    ensures LowBytes(s) == LowBytes(t) <==> |s| == |t| && forall i :: 0 <= i < |s| ==> s[i] % 256 == t[i] % 256
    ensures (exists i :: 0 <= i < |s| && s[i] >= 256) ==> BinaryString(LowBytes(s)) != s
  {
  }

  // ---------------------------------------------------------------------
  // The terminal.

  /** xterm's cursor styles. */
  datatype CursorStyle = Block | Bar | Underline

  /** The hterm shape names mapped to xterm styles: `BEAM` and `UNDERLINE` are special, anything else is a block. */
  function CursorStyleFor(shape: string): (style: CursorStyle)
    ensures style == Bar <==> shape == "BEAM"
    ensures style == Underline <==> shape == "UNDERLINE"
    ensures style == Block <==> shape != "BEAM" && shape != "UNDERLINE"
  {
    if shape == "BEAM" then Bar
    else if shape == "UNDERLINE" then Underline
    else Block
  }

  /** What `fitAddon.fit()` did: left the terminal at some size, or threw. */
  datatype FitResult = Fitted(cols: int, rows: int) | Threw

  const DefaultCols := 80
  const DefaultRows := 24

  /** The size after the fit step: a usable fitted size, or 80x24 when the fit threw or left fewer than 2 columns or rows. */
  function SizeAfterFit(fit: FitResult): (size: (int, int))
    ensures size.0 >= 2 && size.1 >= 2
    ensures size != (DefaultCols, DefaultRows) ==> fit == Fitted(size.0, size.1)
    ensures fit.Fitted? && fit.cols >= 2 && fit.rows >= 2 ==> size == (fit.cols, fit.rows)
  {
    match fit
    case Threw => (DefaultCols, DefaultRows)
    case Fitted(c, r) => if c < 2 || r < 2 then (DefaultCols, DefaultRows) else (c, r)
  }

  const Banner := "HiSH is starting...\r\n\r\n"
    + "     |  | _)   __|  |  |\r\n"
    + "     __ |  | \\__ \\  __ |\r\n"
    + "    _| _| _| ____/ _| _|\r\n"
  const BridgeError := "\r\nError: Native bridge failed to initialize.\r\n"

  /** The parts of the xterm terminal the page sets. */
  class Terminal {
    var cols: int
    var rows: int
    var cursorStyle: CursorStyle
    /** The lines written with `writeln`. */
    var lines: seq<string>

    /** A new xterm terminal: 80x24 with a block cursor. */
    constructor ()
      ensures cols == DefaultCols && rows == DefaultRows && cursorStyle == Block && lines == []
    {
      cols := DefaultCols;
      rows := DefaultRows;
      cursorStyle := Block;
      lines := [];
    }

    /** `exports.setCursorShape(shape)`. */
    method SetCursorShape(shape: string)
      modifies this
      ensures cursorStyle == CursorStyleFor(shape)
      ensures cols == old(cols) && rows == old(rows) && lines == old(lines)
    {
      match shape {
        case "BEAM" => cursorStyle := Bar;
        case "UNDERLINE" => cursorStyle := Underline;
        case _ => cursorStyle := Block;
      }
    }

    /** Step 2 of the deferred start-up: fit, then force 80x24 if the fit threw or came out too small. */
    method FitOrFallback(fit: FitResult)
      modifies this
      ensures (cols, rows) == SizeAfterFit(fit)
      ensures cursorStyle == old(cursorStyle) && lines == old(lines)
    {
      match fit {
        case Threw =>
          cols, rows := DefaultCols, DefaultRows;
        case Fitted(c, r) =>
          cols, rows := c, r;
          if cols < 2 || rows < 2 {
            cols, rows := DefaultCols, DefaultRows;
          }
      }
    }

    /**
     * The deferred part of `initialize`: fit the terminal, write the
     * banner, then call `native.load()` when the bridge offers it, or write
     * the bridge error.
     */
    method FinishStartup(fit: FitResult, nativeLoad: bool) returns (loadCalled: bool)
      modifies this
      ensures (cols, rows) == SizeAfterFit(fit)
      ensures loadCalled == nativeLoad
      ensures lines == old(lines) + [Banner] + (if nativeLoad then [] else [BridgeError])
      ensures cursorStyle == old(cursorStyle)
    {
      FitOrFallback(fit);
      lines := lines + [Banner];
      loadCalled := nativeLoad;
      if !nativeLoad {
        lines := lines + [BridgeError];
      }
    }
  }

  // ---------------------------------------------------------------------
  // Waiting for the native object.

  const MaxRetries := 10
  const RetryDelayMs := 200

  /** Whether `window.native` is there on the `k`-th call of `initialize` (absent past the end of the list). */
  predicate NativeAt(present: seq<bool>, k: nat) {
    k < |present| && present[k]
  }

  /**
   * `initialize`'s retries: while the native object is missing and fewer
   * than 10 retries were made, wait 200 ms and call again. `retries` is
   * how many times it rescheduled itself before going on.
   */
  method WaitForNative(present: seq<bool>) returns (retries: nat, waitedMs: nat, nativeReady: bool)
    ensures retries <= MaxRetries
    ensures forall k :: 0 <= k < retries ==> !NativeAt(present, k)
    ensures retries < MaxRetries ==> NativeAt(present, retries)
    ensures nativeReady <==> NativeAt(present, retries)
    ensures waitedMs == RetryDelayMs * retries
  {
    retries := 0;
    waitedMs := 0;
    while !NativeAt(present, retries) && retries < MaxRetries
      invariant retries <= MaxRetries && waitedMs == RetryDelayMs * retries
      invariant forall k :: 0 <= k < retries ==> !NativeAt(present, k)
    {
      retries := retries + 1;
      waitedMs := waitedMs + RetryDelayMs;
    }
    nativeReady := NativeAt(present, retries);
  }

  /** If the object appears by the 10th retry the page goes on with it; otherwise it goes on without it after exactly 10. */
  lemma WaitIsBounded(present: seq<bool>, retries: nat)
    requires retries <= MaxRetries
    requires forall k :: 0 <= k < retries ==> !NativeAt(present, k)
    requires retries < MaxRetries ==> NativeAt(present, retries)
    ensures (exists k :: 0 <= k <= MaxRetries && NativeAt(present, k)) <==> NativeAt(present, retries)
    ensures !NativeAt(present, retries) ==> retries == MaxRetries
  {
  }

  // ---------------------------------------------------------------------
  // Effects and screensaver.

  /** Draws that fit the trails a `MatrixRain` makes for a window of this size. */
  predicate StepsFitWindow(steps: seq<Rain.TrailStep>, width: nat, height: nat) {
    |steps| == width / Rain.FontSize
    && forall i :: 0 <= i < |steps| ==> |steps[i].mutations| == Rain.RowsFor(height, Rain.FontSize)
  }

  /** The page-level state of `term.js`: preferences, the screensaver timer, the rain and its canvas. */
  class Page {
    var terminalEffectsEnabled: bool
    var screensaverTimeoutValue: int
    /** The pending screensaver timer's delay in milliseconds, if one is armed. */
    var timerDelayMs: Option<int>
    var currentEffectType: string
    var rain: Rain.MatrixRain?
    /** Whether the `matrix` canvas element exists, and its `z-index`. */
    const hasCanvas: bool
    var canvasZIndex: int
    /** How many times the terminal was refreshed to wipe the screensaver. */
    var terminalRefreshes: nat

    predicate Valid()
      reads this, rain, if rain != null then rain.trails else []
    {
      rain != null ==> rain.Valid()
    }

    /** The page before `initialize` has made the rain. */
    constructor (hasCanvas: bool, canvasZIndex: int)
      ensures Valid() && rain == null && timerDelayMs == None
      ensures !terminalEffectsEnabled && screensaverTimeoutValue == 0 && currentEffectType == "random"
      ensures this.hasCanvas == hasCanvas && this.canvasZIndex == canvasZIndex && terminalRefreshes == 0
    {
      terminalEffectsEnabled := false;
      screensaverTimeoutValue := 0;
      timerDelayMs := None;
      currentEffectType := "random";
      rain := null;
      this.hasCanvas := hasCanvas;
      this.canvasZIndex := canvasZIndex;
      terminalRefreshes := 0;
    }

    /**
     * The page after `resetScreensaverTimer()`, against its state before:
     * the same rain, now out of screensaver mode and running exactly when
     * effects are on; one terminal refresh if the screensaver was on; the
     * canvas sent to the back when effects are on; a timer armed exactly
     * when a timeout is set.
     */
    twostate predicate ScreensaverReset(now: int, frame: int, steps: seq<Rain.TrailStep>)
      reads this, rain, if rain != null then rain.trails else []
    {
      rain == old(rain)
      && timerDelayMs == (if screensaverTimeoutValue > 0 then Some(screensaverTimeoutValue * 1000) else None)
      && terminalRefreshes == old(terminalRefreshes) + (if rain != null && old(rain.isScreensaver) then 1 else 0)
      && canvasZIndex == (if terminalEffectsEnabled && hasCanvas then 0 else old(canvasZIndex))
      && (rain != null ==> Rain.LeftScreensaver(rain, terminalEffectsEnabled, now, frame, steps))
    }

    /**
     * `resetScreensaverTimer()`, run on every input event: cancel the
     * timer; leave screensaver mode (refreshing the terminal if it was
     * on); run the rain in the background exactly when effects are on; and
     * arm a new timer when a timeout is set.
     */
    method ResetScreensaverTimer(now: int, frame: int, steps: seq<Rain.TrailStep>)
      requires Valid() && frame > 0 && (rain != null ==> rain.StepsFit(steps))
      modifies this, rain, if rain != null then rain.trails else []
      ensures Valid() && ScreensaverReset(now, frame, steps)
      ensures terminalEffectsEnabled == old(terminalEffectsEnabled)
      ensures screensaverTimeoutValue == old(screensaverTimeoutValue) && currentEffectType == old(currentEffectType)
    {
      var wasScreensaver := false;
      if rain != null {
        wasScreensaver := rain.LeaveScreensaver(terminalEffectsEnabled, now, frame, steps);
      }
      terminalRefreshes := terminalRefreshes + if wasScreensaver then 1 else 0;
      canvasZIndex := if terminalEffectsEnabled && hasCanvas then 0 else canvasZIndex;
      timerDelayMs := if screensaverTimeoutValue > 0 then Some(screensaverTimeoutValue * 1000) else None;
    }

    /**
     * The screensaver timer fires: if it was armed and there is a rain,
     * screensaver mode, rain started, canvas in front; otherwise nothing
     * but the timer changes.
     */
    method ScreensaverTimerFires(now: int, frame: int, steps: seq<Rain.TrailStep>)
      requires Valid() && frame > 0 && (rain != null ==> rain.StepsFit(steps))
      modifies this, rain, if rain != null then rain.trails else []
      ensures Valid() && rain == old(rain) && timerDelayMs == None
      ensures old(timerDelayMs).Some? && rain != null ==>
        rain.isScreensaver && Rain.Started(rain, now, frame, steps)
        && canvasZIndex == if hasCanvas then 2 else old(canvasZIndex)
      ensures old(timerDelayMs).None? || rain == null ==>
        canvasZIndex == old(canvasZIndex) && (rain != null ==> unchanged(rain) && Rain.Idle(rain))
      ensures terminalRefreshes == old(terminalRefreshes) && terminalEffectsEnabled == old(terminalEffectsEnabled)
      ensures screensaverTimeoutValue == old(screensaverTimeoutValue) && currentEffectType == old(currentEffectType)
    {
      if timerDelayMs.Some? && rain != null {
        rain.isScreensaver := true;
        rain.Start(now, frame, steps);
        canvasZIndex := if hasCanvas then 2 else canvasZIndex;
      }
      timerDelayMs := None;
    }

    /** `exports.setTerminalEffects(enabled)`: the new preference, then a screensaver reset. */
    method SetTerminalEffects(enabled: bool, now: int, frame: int, steps: seq<Rain.TrailStep>)
      requires Valid() && frame > 0 && (rain != null ==> rain.StepsFit(steps))
      modifies this, rain, if rain != null then rain.trails else []
      ensures Valid() && terminalEffectsEnabled == enabled && ScreensaverReset(now, frame, steps)
      ensures screensaverTimeoutValue == old(screensaverTimeoutValue) && currentEffectType == old(currentEffectType)
    {
      terminalEffectsEnabled := enabled;
      ResetScreensaverTimer(now, frame, steps);
    }

    /** `exports.setTerminalScreensaver(timeout)`: the new timeout, in seconds, takes effect at once. */
    method SetTerminalScreensaver(timeout: int, now: int, frame: int, steps: seq<Rain.TrailStep>)
      requires Valid() && frame > 0 && (rain != null ==> rain.StepsFit(steps))
      modifies this, rain, if rain != null then rain.trails else []
      ensures Valid() && screensaverTimeoutValue == timeout && ScreensaverReset(now, frame, steps)
      ensures timerDelayMs == if timeout > 0 then Some(timeout * 1000) else None
      ensures terminalEffectsEnabled == old(terminalEffectsEnabled) && currentEffectType == old(currentEffectType)
    {
      screensaverTimeoutValue := timeout;
      ResetScreensaverTimer(now, frame, steps);
    }

    /** `exports.setTerminalEffectType(type)`: remembered, and passed to the rain when there is one. */
    method SetTerminalEffectType(kind: string, sampleCharSet: string)
      requires Valid()
      modifies this, rain, if rain != null then rain.trails else []
      ensures Valid() && rain == old(rain) && currentEffectType == kind
      ensures rain != null ==>
        (rain.isBinary <==> kind == "binary")
        && rain.chars == (if kind == "binary" then "01" else sampleCharSet)
        && rain.trails == old(rain.trails)
        && forall i :: 0 <= i < |rain.trails| ==>
             rain.trails[i].chars == rain.chars && rain.trails[i].isBinary == rain.isBinary
             && rain.trails[i].body == old(rain.trails[i].body) && rain.trails[i].offset == old(rain.trails[i].offset)
      ensures rain != null ==>
        rain.animationId == old(rain.animationId) && rain.isScreensaver == old(rain.isScreensaver)
        && rain.lastFrameTime == old(rain.lastFrameTime) && rain.displayed == old(rain.displayed)
        && rain.width == old(rain.width) && rain.height == old(rain.height)
      ensures timerDelayMs == old(timerDelayMs) && terminalEffectsEnabled == old(terminalEffectsEnabled)
      ensures screensaverTimeoutValue == old(screensaverTimeoutValue) && canvasZIndex == old(canvasZIndex)
      ensures terminalRefreshes == old(terminalRefreshes)
    {
      currentEffectType := kind;
      if rain != null {
        rain.SetCharSet(kind, sampleCharSet);
      }
    }

    /**
     * The end of `initialize`: make the rain for the window, then reset the
     * screensaver timer (which starts the rain only if effects are on).
     * The new rain's trails are as built, and took one repaint step exactly
     * when effects are on.
     */
    method CreateRain(width: nat, height: nat, sampleCharSet: string, draws: seq<Rain.TrailDraw>, displayed: bool,
                      now: int, frame: int, steps: seq<Rain.TrailStep>)
      requires Valid() && frame > 0
      requires |draws| == width / Rain.FontSize && forall i :: 0 <= i < |draws| ==> Rain.FitsColumn(draws[i], height)
      requires StepsFitWindow(steps, width, height)
      modifies this, rain, if rain != null then rain.trails else []
      ensures Valid() && rain != null && fresh(rain)
      ensures rain.chars == sampleCharSet && !rain.isBinary && !rain.isScreensaver
      ensures rain.width == width && rain.height == height
      ensures rain.animationId == (if terminalEffectsEnabled then frame else 0)
      ensures rain.displayed == (terminalEffectsEnabled || displayed)
      ensures rain.lastFrameTime == if terminalEffectsEnabled then Some(now) else None
      ensures |rain.trails| == |draws| && forall i :: 0 <= i < |rain.trails| ==> CreatedTrail(rain.trails[i], draws[i], steps[i], sampleCharSet, terminalEffectsEnabled)
      ensures timerDelayMs == if screensaverTimeoutValue > 0 then Some(screensaverTimeoutValue * 1000) else None
      ensures terminalRefreshes == old(terminalRefreshes)
      ensures canvasZIndex == if terminalEffectsEnabled && hasCanvas then 0 else old(canvasZIndex)
      ensures terminalEffectsEnabled == old(terminalEffectsEnabled)
      ensures screensaverTimeoutValue == old(screensaverTimeoutValue) && currentEffectType == old(currentEffectType)
    {
      rain := new Rain.MatrixRain(width, height, sampleCharSet, draws, displayed);
      assert rain.StepsFit(steps);
      label built:
      ResetScreensaverTimer(now, frame, steps);
      assert Rain.LeftScreensaver@built(rain, terminalEffectsEnabled, now, frame, steps);
      if terminalEffectsEnabled {
        assert Rain.FrameDue(old@built(rain.lastFrameTime), now);
        assert forall i :: 0 <= i < |rain.trails| ==> Rain.Repainted@built(rain.trails[i], steps[i]);
      } else {
        assert forall i :: 0 <= i < |rain.trails| ==> unchanged@built(rain.trails[i]);
      }
    }
  }

  /**
   * A trail of a new rain: built from its draw with the rain's characters,
   * then given one repaint step when the rain started.
   */
  predicate CreatedTrail(t: Rain.Trail, draw: Rain.TrailDraw, step: Rain.TrailStep, chars: string, started: bool)
    reads t
  {
    var built := Rain.BuildBody(chars, draw.cells);
    var start := Rain.Pick(draw.offset, t.rows);
    t.size == Rain.TrailSize(draw.size) && t.chars == chars && !t.isBinary
    && if started then
         |step.mutations| == |built|
         && t.offset == Rain.Advance(start, t.rows + t.size)
         && t.body == Rain.HeadRefreshed(Rain.UpdatedBody(built, chars, Rain.MutationRate(false), step.mutations), t.offset, chars, step.head)
       else t.offset == start && t.body == built
  }
}
