# Touchpoint haptic control logic in Dafny

Touchpoint is a screen-reader add-on plus a small haptic device: the add-on
watches what is under the mouse pointer, turns images into depth maps and
drives the device's elevation and vibration over a packet protocol. This
project models the part of it that decides which commands go to the device
and how received packets are read back:

- the add-on's filters, effects and handlers, and the two effect tables
  (`Filters`, `Effects`, `Handlers`, `HandlerTables`);
- the hardware driver and its PING handshake (`Protocol`, `Handshake`,
  `Driver`);
- the monolithic global plugin: image enter / leave / switch, the
  half-open-rectangle elevation lookup, the edge-triggered border vibration
  and the connection sequence (`Plugin`, with the shared border predicate in
  `Geometry` and the pixel-to-depth pipeline in `Imaging`);
- the stand-alone emulator and the in-process emulator window, which share
  the rate-limited elevation slew and the bounded vibration log (`Emulator`,
  `EmulatorGui`, `EmulatorCore`);
- the test scripts: the mouse-packet decoders with signed bytes, click edge
  detection and accumulate-then-drain relaying (`MouseRelay`), the
  screen-capture feedback loops (`ScreenFeedback`) and the zres
  quantisation of the depth-map feedback script (`DepthFeedback`).

The model is made of pure functions over immutable datatypes and of
methods without side effects; a step returns the new state together with
the commands it emits. Floats are `real`. The
coordinator behind `plugin.*` (capture-region registry, mouse position,
screen size, the `hardware` object) is not part of the shown code, so its
calls are recorded in a trace and an environment function says which of them
raise. The framing library is abstract too: a packet is a header plus typed
fields, and each `wait_for_header` result comes from an oracle sequence.
Helpers that the scripts duplicate (signed byte, border test, slew step,
ping loop, the mouse/button handlers and the drain) are defined once. The
copies in `screen_capture_test.py` (183-220, 291-309) and
`depth_map_feedback_test.py` (102-119, 122-165, 244-261) are the same code as
the members cited below for `testing/mouse_emulator_test.py` and
`mouse_emulator_test.py`.

## Model

| member | source | states |
|---|---|---|
| Numeric.SignedByte | mouse_emulator_test.py:58-62 | a byte b becomes b when b ≤ 127 and b-256 otherwise; the result lies in [-128, 127] and is congruent to b mod 256 |
| Numeric.SignedByteRoundTrip | testing/mouse_emulator_test.py:63-66 | the signed conversion and the unsigned one invert each other on bytes and on [-128, 127] |
| Numeric.Clamp | screen_capture_test.py:143-148 | the `max(lo, min(hi, v))` clamp lands in [lo, hi], keeps in-range values and sends low values to lo and high ones to hi |
| Numeric.TruncToInt | addon/globalPlugins/touchpoint/handlers.py:139-140 | Python's `int()` on a float truncates toward zero |
| Numeric.FloorDiv | screen_capture_test.py:143-144 | `//` by a positive divisor is the floor quotient |
| Numeric.RoundHalfEven | depth_map_feedback_test.py:74-75 | `np.round` gives the nearest integer, ties going to the even one |
| Numeric.RoundHalfEvenInRange | depth_map_feedback_test.py:74-75 | rounding a value in [0, n] stays in [0, n] |
| Filters.GraphicMatches | addon/globalPlugins/touchpoint/filters.py:85-117 | false for a missing object, a missing, raising or None role; true for GRAPHIC or IMAGEMAP; otherwise true iff the attributes (IA2Attributes first, else IAccessibleObject.attributes) are a dict whose tag is video or a string containing tag:video |
| Filters.AttributesOf | addon/globalPlugins/touchpoint/filters.py:99-103 | IA2Attributes is read when present, and IAccessibleObject.attributes only otherwise |
| Filters.AllMatchIff | addon/globalPlugins/touchpoint/filters.py:32-34 | the include loop passes iff every include filter matches |
| Filters.AnyMatchesIff | addon/globalPlugins/touchpoint/filters.py:35-37 | the exclude loop rejects iff some exclude filter matches |
| Filters.ComboObjectsLaw | addon/globalPlugins/touchpoint/filters.py:4-38 | a combo object filter matches iff all includes match and no exclude matches; empty lists and the base `ObjectFilter` match everything |
| Filters.EvaluateComboObjects | addon/globalPlugins/touchpoint/filters.py:32-38 | the loop evaluation gives the same verdict, stops at the first failing include, and consults excludes only after every include passed |
| Filters.AllGlobalMatchIff | addon/globalPlugins/touchpoint/filters.py:64-66 | the global include loop passes iff every include matches |
| Filters.AnyGlobalMatchesIff | addon/globalPlugins/touchpoint/filters.py:67-69 | the global exclude loop rejects iff some exclude matches |
| Filters.ComboGlobalLaw | addon/globalPlugins/touchpoint/filters.py:40-70 | a combo global filter matches iff all includes match and no exclude matches; empty lists and the base `GlobalFilter` match everything |
| Effects.InvokeAllAppend | addon/globalPlugins/touchpoint/effects.py:20-23 | running a+b runs a, and runs b only if a completed, concatenating their calls |
| Effects.ComboRunsInOrder | addon/globalPlugins/touchpoint/effects.py:20-23 | when no sub-effect raises, a combo's calls are its sub-effects' calls in list order |
| Effects.ComboStopsAtFirstFailure | addon/globalPlugins/touchpoint/effects.py:22-23 | the first raising sub-effect ends the combo with its exception, and nothing after it influences the outcome |
| Effects.EmptyAndBase | addon/globalPlugins/touchpoint/effects.py:4-23 | an empty combo makes no call; the base effect raises NotImplementedError |
| Effects.SingleCallEffects | addon/globalPlugins/touchpoint/effects.py:28-73 | vibration, global-elevation and relative-elevation effects each make exactly one coordinator call with their parameters; defaults are (0.5, 150.0, 500), 0.0 and 0.0 |
| Effects.SubjectPassedThrough | addon/globalPlugins/touchpoint/effects.py:20-23 | every object-formatting log line of an effect formats the object the effect was given |
| Effects.SubjectPassedThroughAll | addon/globalPlugins/touchpoint/effects.py:22-23 | a sequence of sub-effects all see the same object |
| Effects.RaisingTruncates | addon/globalPlugins/touchpoint/effects.py:22-23 | a raising environment only cuts an effect's call sequence short: it is a prefix of the non-raising run, and equal to it when nothing raised |
| Effects.RaisingTruncatesAll | addon/globalPlugins/touchpoint/effects.py:22-23 | the same prefix property for a list of sub-effects |
| Handlers.EffectsOrEmpty | addon/globalPlugins/touchpoint/handlers.py:38 | a missing effect table is the empty table |
| Handlers.NewObjectHandler | addon/globalPlugins/touchpoint/handlers.py:29-38 | a new object handler has no coordinator, the given filter or its class default (match-all, or the graphic filter), and the given or empty table |
| Handlers.NewGlobalHandler | addon/globalPlugins/touchpoint/handlers.py:71-80 | a new global handler has no coordinator and the given or match-all filter; a border handler starts off the border |
| Handlers.ErrorReport | addon/globalPlugins/touchpoint/handlers.py:63-66 | a contained exception produces two log lines and nothing else |
| Handlers.Dispatch | addon/globalPlugins/touchpoint/handlers.py:60-66 | an unknown event does nothing; a known one runs its effect, and an exception is followed only by the two log lines and never escapes |
| Handlers.DispatchContainsErrors | addon/globalPlugins/touchpoint/handlers.py:61-66 | whatever raises, dispatch emits a prefix of the non-raising run followed by log lines only |
| Handlers.HandleEvent | addon/globalPlugins/touchpoint/handlers.py:52-66 | `handle_event` passes the event's object to the effect; unknown events emit nothing |
| Handlers.TriggerEvent | addon/globalPlugins/touchpoint/handlers.py:98-111 | `trigger_event` runs the effect with no object; unknown events emit nothing |
| Handlers.TriggerEventLogsNoObject | addon/globalPlugins/touchpoint/handlers.py:107 | a triggered global event never formats an object, because it passes None |
| Handlers.GraphicHandleEvent | addon/globalPlugins/touchpoint/handlers.py:155-176 | 'enter' without a location does nothing; 'enter' registers the capture region first and 'leave' removes it first; a failing registration escapes with nothing else done; other events only reach the base dispatch |
| Handlers.RegionThenDispatch | addon/globalPlugins/touchpoint/handlers.py:169-176 | the region call comes first and the base dispatch runs only if it did not raise |
| Handlers.GraphicBracketsEffects | addon/globalPlugins/touchpoint/handlers.py:165-176 | with a working coordinator, enter and leave are exactly the region call followed by the base handler's calls |
| Handlers.DepthToElevation | addon/globalPlugins/touchpoint/handlers.py:150 | a depth in [0, 1] gives an elevation in [-0.5, 0.5] |
| Handlers.DepthToElevationLaws | addon/globalPlugins/touchpoint/handlers.py:149-150 | depths 0, 0.5 and 1 give -0.5, 0 and 0.5; the mapping is strictly increasing and shifts depth by -0.5 |
| Handlers.SampleIndex | addon/globalPlugins/touchpoint/handlers.py:139-144 | the clamped sample index lies in [0, cells-1] |
| Handlers.SampleIndexInsideRegion | addon/globalPlugins/touchpoint/handlers.py:139-140 | for a pointer inside the region the index is the unclamped truncated scaling, and never overshoots the pointer's proportional position |
| Handlers.CaptureCallback | addon/globalPlugins/touchpoint/handlers.py:122-153 | the callback asks for the mouse position first; a zero region side divides by zero; otherwise it sends exactly one elevation, the mapped depth of the clamped cell, in [-0.5, 0.5] |
| Handlers.BorderRun | addon/globalPlugins/touchpoint/handlers.py:185-198 | one run reads position and screen size, fires border_enter or border_leave exactly when the border predicate changed, and remembers the new value; a failing read changes nothing |
| Handlers.EventNames | addon/globalPlugins/touchpoint/handlers.py:194-197 | an entered border names border_enter and a left one border_leave |
| Handlers.BorderEventsAreEdges | addon/globalPlugins/touchpoint/handlers.py:183-198 | over any pointer sequence the border handler fires exactly the edges of the border predicate, starting from off-border |
| Handlers.InitialStore | addon/globalPlugins/touchpoint/handlers.py:12 | at import time there is one default list, and it is empty |
| Handlers.NewManager | addon/globalPlugins/touchpoint/handlers.py:12-14 | a manager built without a list adopts the default list object |
| Handlers.AddHandler | addon/globalPlugins/touchpoint/handlers.py:16-19 | `add_handler` appends the handler, pointed at the manager's coordinator, and leaves every other list alone |
| Handlers.Populate | addon/globalPlugins/touchpoint/handlers.py:21-24 | populating keeps the list store's shape |
| Handlers.Attached | addon/globalPlugins/touchpoint/handlers.py:19 | each handler gets the manager's coordinator |
| Handlers.PopulateAppendsInOrder | addon/globalPlugins/touchpoint/handlers.py:21-24 | `populate` appends the handlers in list order and touches no other list |
| Handlers.DefaultListShared | addon/globalPlugins/touchpoint/handlers.py:12 | as written, a handler added to one default-built manager shows up in another |
| Handlers.NewManagerFresh | addon/globalPlugins/touchpoint/handlers.py:12-14 | as intended, a manager built without a list gets a new empty list and the existing lists are unchanged |
| Handlers.FreshListsIndependent | addon/globalPlugins/touchpoint/handlers.py:12-19 | with fresh lists, adding to one manager leaves another empty |
| HandlerTables.ConfigGraphicHandler | addon/globalPlugins/touchpoint/handler_config.py:5-10 | the graphic handler uses the graphic filter and maps exactly 'enter' and 'leave' |
| HandlerTables.ConfigBorderHandler | addon/globalPlugins/touchpoint/handler_config.py:12-17 | the border handler starts off-border and maps exactly 'border_enter' and 'border_leave' |
| HandlerTables.ListGraphicHandler | addon/globalPlugins/touchpoint/handler_list.py:4-9 | the alternative graphic handler maps exactly 'enter' and 'leave' |
| HandlerTables.ListBorderHandler | addon/globalPlugins/touchpoint/handler_list.py:11-16 | the alternative border handler maps exactly 'border_enter' and 'border_leave' |
| HandlerTables.ConfigEnter | addon/globalPlugins/touchpoint/handler_config.py:7 | 'enter' sends vibration (0.1, 180.0, 1) and then logs; if the send raises, only the error lines follow |
| HandlerTables.ConfigLeave | addon/globalPlugins/touchpoint/handler_config.py:8 | 'leave' sends elevation 0, then vibration (0.05, 80.0, 1), then logs |
| HandlerTables.ConfigLeaveResetFails | addon/globalPlugins/touchpoint/handler_config.py:8 | if the elevation reset raises, the leave vibration is never sent |
| HandlerTables.ConfigGraphicEnterRun | addon/globalPlugins/touchpoint/handler_config.py:6-7 | entering an image through the configured graphic handler registers the region, vibrates, then logs |
| HandlerTables.ConfigBorder | addon/globalPlugins/touchpoint/handler_config.py:14-15 | border_enter sends the continuous vibration (0.1, 200.0, 0) and border_leave the stop (0, 0, 0), each followed by a log line |
| HandlerTables.ConfigUnmappedEventsSilent | addon/globalPlugins/touchpoint/handler_config.py:6-16 | any other event name emits nothing |
| HandlerTables.ConfigBorderLeaveStarts | addon/globalPlugins/touchpoint/handler_config.py:15 | leaving the border always begins with the stop vibration, whatever raises |
| HandlerTables.ListGraphic | addon/globalPlugins/touchpoint/handler_list.py:6-7 | the alternative enter and leave are single vibrations, and leave resets no elevation |
| HandlerTables.ListBorder | addon/globalPlugins/touchpoint/handler_list.py:13-14 | the alternative border_leave is the nonzero vibration (0.05, 100.0, 0), unlike the configured stop |
| Protocol.DecodeEncode | addon/globalPlugins/touchpoint/hardware_driver.py:36-84 | what the driver writes, the emulator reads back as the same command (header, then float, float, int16 fields in order) |
| Protocol.EncodeDecode | emulator/hardware_emulator.py:201-258 | a packet the emulator accepts re-encodes to its header and a prefix of its fields |
| Protocol.EncodeInjective | addon/globalPlugins/touchpoint/hardware_driver.py:7-10 | distinct commands give distinct packets |
| Handshake.Attempts | addon/globalPlugins/touchpoint/hardware_driver.py:54-57 | n loop iterations make 2n transport calls |
| Handshake.AttemptsShape | addon/globalPlugins/touchpoint/hardware_driver.py:55-56 | each PING wait with a 1000 ms timeout is followed by a flush |
| Handshake.AwaitPing | addon/globalPlugins/touchpoint/hardware_driver.py:46-66 | the handshake succeeds iff a PING arrives within the budget; on success the calls are flush, the attempts up to the first answer, and one PING acknowledgement; on failure, flush and all the attempts, with nothing sent |
| Handshake.BoundedMatchesUnbounded | addon/globalPlugins/touchpoint/touchpoint.py:142-161 | the ten-attempt loop and the scripts' unbounded loop make the same calls when the device answers within ten attempts |
| Handshake.AttemptsSendNothing | addon/globalPlugins/touchpoint/hardware_driver.py:54-57 | the waiting loop itself sends nothing |
| Handshake.WaitForPingUnbounded | mouse_emulator_test.py:20-37 | the scripts' `wait_for_ping` sends exactly one PING acknowledgement, as its last call, and only after a response arrived |
| Driver.NewDriver | addon/globalPlugins/touchpoint/hardware_driver.py:16-19 | a new driver is enabled |
| Driver.SendVibration | addon/globalPlugins/touchpoint/hardware_driver.py:68-76 | disabled: nothing; enabled: one plain send of header 0x20 carrying amplitude, frequency and duration |
| Driver.SendElevation | addon/globalPlugins/touchpoint/hardware_driver.py:78-84 | disabled: nothing; enabled: one plain send of header 0x10 carrying the elevation |
| Driver.SetMaxElevationSpeed | addon/globalPlugins/touchpoint/hardware_driver.py:36-44 | disabled: nothing; enabled: one guaranteed send of the ELEVATION_SPEED command |
| Driver.GuaranteedOnlyForSpeed | addon/globalPlugins/touchpoint/hardware_driver.py:36-84 | a disabled driver sends nothing, and only the speed setting asks for guaranteed delivery |
| Driver.Initialize | addon/globalPlugins/touchpoint/hardware_driver.py:21-34 | a port that does not open disables the driver with no handshake; otherwise enabled is the handshake result, success ends with the PING acknowledgement, failure makes ten waits and sends nothing |
| Driver.InitializeAsWritten | addon/globalPlugins/touchpoint/hardware_driver.py:46-50 | as written, the handshake raises on the undefined `self.logMessage` after its first flush, so it never waits, never acknowledges, and leaves enabled unchanged |
| Driver.AsWrittenStaysEnabled | addon/globalPlugins/touchpoint/hardware_driver.py:19-50 | on a silent device the as-written driver still sends a vibration, where the intended one sends nothing |
| Geometry.BorderValues | addon/globalPlugins/touchpoint/handlers.py:190-191 | the border predicate at each pointer, the same test as touchpoint.py lines 295-296 |
| Geometry.OffBorderIsInterior | addon/globalPlugins/touchpoint/touchpoint.py:295-296 | a pointer is off the border iff it is strictly inside the screen's outer ring of pixels |
| Geometry.BorderEdge | addon/globalPlugins/touchpoint/touchpoint.py:298-313 | the remembered flag becomes the new value, and an edge is reported exactly when it changed, carrying the new value |
| Geometry.EdgesAlternate | testing/screen_capture_test.py:240-256 | reported edges alternate, starting with the opposite of the initial flag |
| Geometry.UnchangedFiresNothing | addon/globalPlugins/touchpoint/handlers.py:193 | repeating the remembered value reports nothing |
| Imaging.SumBounds | screen_capture_test.py:75-77 | a sum of channel values in [0, 255] lies in [0, 255·n] |
| Imaging.PixelDepth | screen_capture_test.py:75-82 | a pixel's channel mean over 255, optionally inverted, lies in [0, 1] |
| Imaging.InvertComplements | screen_capture_test.py:81-82 | inversion -1 maps depth d to 1-d, and any other setting leaves it |
| Imaging.PixelDepthExtremes | screen_capture_test.py:75-79 | black is depth 0 and white depth 1 |
| Imaging.FrameToDepthMap | addon/globalPlugins/touchpoint/touchpoint.py:177-190 | the plugin's depth map has the frame's shape and each cell is that pixel's depth |
| Imaging.DropAlpha | testing/screen_capture_test.py:76 | dropping alpha keeps the frame's shape and at most the first three channels of each pixel |
| Imaging.CeilDiv | screen_capture_test.py:72 | the number of kept rows or columns is the ceiling of the size over the step |
| Imaging.ScaledIndexInRange | screen_capture_test.py:72 | every kept index maps back inside the frame |
| Imaging.Downsample | screen_capture_test.py:72 | keeping every 16th row and column gives ceil(H/16) × ceil(W/16) cells, cell (i, j) being pixel (16i, 16j) |
| Imaging.CaptureDepthMap | screen_capture_test.py:61-85 | the captured map is a depth map of ceil(H/16) × ceil(W/16) cells |
| Imaging.CaptureDepthMapBgra | testing/screen_capture_test.py:63-93 | dropping alpha first gives a depth map of the same size |
| Imaging.CaptureCellBgra | testing/screen_capture_test.py:76-90 | for a BGRA frame, cell (i, j) of the mss map is the mean of the B, G and R channels of pixel (16i, 16j) over 255, alpha ignored |
| Imaging.CaptureCell | screen_capture_test.py:72-82 | cell (i, j) is the depth of pixel (16i, 16j) |
| Imaging.ScreenSizeOf | screen_capture_test.py:84 | a frame's recorded size is positive in both dimensions |
| Imaging.DownsampledElevationAt | screen_capture_test.py:134-153 | None before the first capture; otherwise the cell at the clamped `// 16` index, times 0.5, in [0, 0.5] |
| Imaging.DownsampledLookupCoversPointer | testing/screen_capture_test.py:142-161 | for an on-screen pointer, the lookup after a capture gives 0.5 × the depth of the pixel at the pointer rounded down to the grid |
| Plugin.RegionOf | addon/globalPlugins/touchpoint/touchpoint.py:327-328 | the stored region starts at the object's left and top corner and spans its width and height |
| Plugin.InitialState | addon/globalPlugins/touchpoint/touchpoint.py:67-84 | the plugin starts enabled, with nothing tracked, no core, no camera, capture off and off the border |
| Plugin.IsImageObject | addon/globalPlugins/touchpoint/touchpoint.py:219-240 | an object counts as an image iff it exists and its role is GRAPHIC or IMAGE |
| Plugin.ImageObjectVersusGraphicFilter | addon/globalPlugins/touchpoint/touchpoint.py:232 | the plugin and the graphic filter agree on GRAPHIC but disagree on IMAGEMAP |
| Plugin.ImageEnter | addon/globalPlugins/touchpoint/touchpoint.py:321-339 | without a location nothing changes; otherwise the object and its region are tracked, capture is on, and one VIBRATION(0.08, 150, 100) goes out when the core exists |
| Plugin.ImageLeave | addon/globalPlugins/touchpoint/touchpoint.py:341-362 | leave clears capture, object, region and map and sends VIBRATION(0.06, 100, 80) then ELEVATION(0.0) |
| Plugin.Classify | addon/globalPlugins/touchpoint/touchpoint.py:519-532 | enter, leave, switch or nothing, each exactly under its condition; a switch needs an image that is a different element from the tracked one, so the same element reported again is no transition |
| Plugin.MouseMove | addon/globalPlugins/touchpoint/touchpoint.py:509-534 | each transition runs the matching handlers, a switch being leave then enter, and no transition changes nothing |
| Plugin.MouseMoveTracksImageUnderPointer | addon/globalPlugins/touchpoint/touchpoint.py:519-532 | after a move nothing is tracked off images; over the tracked element the stored object is kept; over another image that image is tracked if it has a location; whatever is tracked is the element under the pointer, and the state stays consistent |
| Plugin.SameElementKeepsRegion | addon/globalPlugins/touchpoint/touchpoint.py:519-532 | the tracked element reported again, even at a new location, sends nothing and keeps the region taken on entry |
| Plugin.SwitchSendsLeaveThenEnter | addon/globalPlugins/touchpoint/touchpoint.py:529-532 | switching images sends the leave pulse, ELEVATION(0.0), then the enter pulse |
| Plugin.CaptureTick | addon/globalPlugins/touchpoint/touchpoint.py:192-217 | while capturing a region with a camera, a grabbed frame replaces the map and the size; otherwise nothing changes |
| Plugin.ElevationAt | addon/globalPlugins/touchpoint/touchpoint.py:242-272 | a value iff a map and a region exist and the point is in the half-open rectangle; the value is 0.5 times the cell at the region-relative index clamped into the map, so it lies in [0, 0.5] |
| Plugin.TickVibrations | addon/globalPlugins/touchpoint/touchpoint.py:284-313 | with the link up, the vibrations of one tracking iteration are its border edge; the elevation it may send first is not one |
| Plugin.ElevationAtCoveringMap | addon/globalPlugins/touchpoint/touchpoint.py:254-270 | when the map covers the region, the value is 0.5 × the cell under the pointer |
| Plugin.TrackingTick | addon/globalPlugins/touchpoint/touchpoint.py:280-319 | one tracking iteration sends the elevation (when capturing) and then a border vibration only on a border change; without a core the change raises, is logged, and the flag stays |
| Plugin.BorderCommandsOf | addon/globalPlugins/touchpoint/touchpoint.py:299-312 | an entered border is VIBRATION(0.05, 100, 0) and a left one VIBRATION(0, 0, 0) |
| Plugin.TrackingBorderIsEdges | addon/globalPlugins/touchpoint/touchpoint.py:284-313 | over any pointer sequence, with capture on or off, the vibrations the tracking loop sends are exactly the edges of the border predicate |
| Plugin.Connect | addon/globalPlugins/touchpoint/touchpoint.py:101-161 | a closed port disables the plugin; a handshake timeout raises and disables it; otherwise it stays enabled iff the camera starts, and the handshake ended with the PING acknowledgement |
| EmulatorCore.SlewStep | emulator/hardware_emulator.py:281-290 | no move within the 0.01 dead band; a snap when the gap is within speed·dt; otherwise a move of exactly speed·dt toward the target, never overshooting |
| EmulatorCore.SlewSettles | emulator/hardware_emulator.py:281-290 | n refreshes close the gap by n·speed·dt or reach the dead band |
| EmulatorCore.SlewAtTarget | addon/globalPlugins/touchpoint/emulator_gui.py:275 | at the target, refreshes change nothing |
| EmulatorCore.SlewInDeadBand | addon/globalPlugins/touchpoint/emulator_gui.py:275 | inside the dead band, refreshes change nothing |
| EmulatorCore.DurationTextOf | emulator/hardware_emulator.py:231 | duration 0 renders as indefinite, any other as a pulse count |
| EmulatorCore.VibrationEntry | addon/globalPlugins/touchpoint/emulator_gui.py:235-240 | a line reads "Vibration stopped" iff amplitude or frequency is 0; otherwise it shows amplitude, frequency and duration |
| EmulatorCore.AppendBounded | emulator/hardware_emulator.py:238-242 | the new entry goes last, and the first is dropped when the widget would exceed 100 lines |
| EmulatorCore.AppendAllKeepsNewest | addon/globalPlugins/touchpoint/emulator_gui.py:242-249 | any run of inserts keeps the newest entries in arrival order, within the 100-line bound |
| EmulatorCore.AppendAllSuffix | addon/globalPlugins/touchpoint/emulator_gui.py:242-249 | whatever the log held, repeated inserts leave a suffix of the old log followed by the new entries |
| Emulator.InitialEmulator | emulator/hardware_emulator.py:36-60 | the emulator starts disconnected both ways, at rest, with speed 1.0 and an empty log |
| Emulator.Apply | emulator/hardware_emulator.py:194-258 | PING connects the add-on; ELEVATION sets only the target; ELEVATION_SPEED only the speed; VIBRATION logs its classified line; STATUS sets hardware_connected iff the byte is 1 |
| Emulator.Receive | emulator/hardware_emulator.py:201-258 | an unreadable packet changes nothing; a packet never moves the displayed elevation, never disconnects the add-on and keeps the log bound |
| Emulator.ReceiveAllInvariants | emulator/hardware_emulator.py:194-258 | the same three facts over any packet sequence |
| Emulator.PingLoopStep | emulator/hardware_emulator.py:183-186 | the ping loop sends one PING iff the add-on is not connected |
| Emulator.PingingStopsAfterAnswer | emulator/hardware_emulator.py:183-199 | once the add-on's PING has arrived the loop never pings again |
| Emulator.Refresh | emulator/hardware_emulator.py:274-290 | a refresh changes only the displayed elevation, and never moves it away from the target |
| Emulator.DriverToEmulator | addon/globalPlugins/touchpoint/hardware_driver.py:36-84 | whatever an enabled driver sends, the emulator ends up with exactly that target, speed, or a last log line classifying that vibration |
| EmulatorGui.InitialGui | addon/globalPlugins/touchpoint/emulator_gui.py:24-49 | the window starts hidden and disconnected, with current = target = 0.0, speed 1.0, no log and no map |
| EmulatorGui.SetHardwareStatus | addon/globalPlugins/touchpoint/emulator_gui.py:181-189 | only the connection flag changes, to the value given |
| EmulatorGui.SetElevation | addon/globalPlugins/touchpoint/emulator_gui.py:191-197 | only the target changes |
| EmulatorGui.SetElevationSpeed | addon/globalPlugins/touchpoint/emulator_gui.py:199-205 | only the speed changes |
| EmulatorGui.SetVibration | addon/globalPlugins/touchpoint/emulator_gui.py:207-217 | a hidden window ignores vibrations; a shown one logs the classified line within the bound |
| EmulatorGui.UpdateDepthMap | addon/globalPlugins/touchpoint/emulator_gui.py:219-226 | only the stored map changes, to the given map or none |
| EmulatorGui.UpdateDisplay | addon/globalPlugins/touchpoint/emulator_gui.py:265-284 | a hidden window does not refresh; a shown one changes only the displayed elevation and never moves it away from the target |
| EmulatorGui.WindowMatchesStandalone | addon/globalPlugins/touchpoint/emulator_gui.py:181-217 | a shown window and the stand-alone emulator, in the same state, stay in step on every command |
| EmulatorGui.WindowRefreshMatchesStandalone | addon/globalPlugins/touchpoint/emulator_gui.py:265-284 | a shown window and the stand-alone emulator, in the same state, stay in step on every refresh |
| EmulatorGui.HiddenWindowDiverges | addon/globalPlugins/touchpoint/emulator_gui.py:215-217 | a hidden window drops a vibration the stand-alone emulator logs |
| MouseRelay.MoveIfAny | mouse_emulator_test.py:65-66 | a move is issued iff some delta is nonzero, and it carries both deltas |
| MouseRelay.DeltaOf | mouse_emulator_test.py:54-62 | two payload bytes become signed deltas in [-128, 127], each congruent to its byte mod 256 |
| MouseRelay.MovedAppend | testing/mouse_emulator_test.py:145-146 | total movement of two action runs adds up |
| MouseRelay.ButtonEventsAppend | testing/mouse_emulator_test.py:149-153 | button presses and releases of two action runs concatenate |
| MouseRelay.ButtonCall | mouse_emulator_test.py:69-76 | a rising edge presses, a falling edge releases, no edge does nothing |
| MouseRelay.ClickHandler | mouse_emulator_test.py:44-76 | a null packet, another header or a payload other than 3 bytes does nothing; otherwise it moves by the signed deltas when nonzero, presses only on false→true, releases only on true→false, and remembers the click |
| MouseRelay.ClickRunIsEdgeDetector | mouse_emulator_test.py:68-76 | over any packet sequence the presses and releases are exactly the edges of the click bits |
| MouseRelay.ClickRunRemembersLast | mouse_emulator_test.py:72-76 | the remembered click state is the last click bit received |
| MouseRelay.ClicksAlternate | mouse_emulator_test.py:69-76 | starting released, presses and releases alternate, beginning with a press |
| MouseRelay.InitialRelay | testing/mouse_emulator_test.py:20-26 | the relay starts with zero accumulators and no button change |
| MouseRelay.OnMove | testing/mouse_emulator_test.py:50-71 | a payload other than 2 bytes is ignored; otherwise the pending movement grows by the signed deltas |
| MouseRelay.OnButton | testing/mouse_emulator_test.py:77-91 | a payload other than 1 byte is ignored; otherwise the state is (byte ≠ 0) and changed is set; movement is untouched |
| MouseRelay.Receive | testing/mouse_emulator_test.py:50-91 | packets the two handlers reject change nothing |
| MouseRelay.AccumulatorsAreSums | testing/mouse_emulator_test.py:50-91 | after any packets, pending movement is the start plus the sum of accepted deltas |
| MouseRelay.ButtonStateIsLast | testing/mouse_emulator_test.py:50-91 | after any packets, the change flag says whether a button packet arrived and the state is the last accepted one |
| MouseRelay.DrainStep | testing/mouse_emulator_test.py:135-153 | a drain moves by exactly the pending amount (never a zero move), presses or releases only if changed was set, and resets accumulators and changed |
| MouseRelay.DrainIdempotent | testing/mouse_emulator_test.py:135-153 | a second drain right after one does nothing |
| MouseRelay.EventConservesMovement | testing/mouse_emulator_test.py:132-153 | one arrival or drain keeps moved plus pending equal to what was sent |
| MouseRelay.RunConservesMovement | testing/mouse_emulator_test.py:132-153 | over any interleaving of arrivals and drains, moved plus pending is the sum of all accepted deltas |
| MouseRelay.FinalDrainReplaysAll | testing/mouse_emulator_test.py:132-153 | ending with a drain, the mouse has moved by exactly the sum of the accepted deltas |
| MouseRelay.RunEndsDrained | testing/mouse_emulator_test.py:135-142 | a run ending with a drain leaves nothing pending |
| ScreenFeedback.NothingCaptured | screen_capture_test.py:134-140 | before the first capture there is no map and no size |
| ScreenFeedback.CaptureStep | testing/screen_capture_test.py:95-140 | a failed grab keeps the last capture; a frame stores a ceil(H/16) × ceil(W/16) map and the frame's size |
| ScreenFeedback.CaptureStepCells | testing/screen_capture_test.py:76-90 | each stored cell (i, j) is the depth of pixel (16i, 16j): over all channels for DXcam, over B, G and R for mss |
| ScreenFeedback.CaptureThenLookup | screen_capture_test.py:61-153 | after a capture, the lookup at an on-screen pointer is 0.5 × the depth of the grid pixel under it |
| ScreenFeedback.CaptureThenLookupBgra | testing/screen_capture_test.py:63-161 | after an mss capture, the lookup at an on-screen pointer is 0.5 × the B, G, R mean over 255 of the grid pixel under it |
| ScreenFeedback.ElevationCommand | screen_capture_test.py:317-321 | ELEVATION is sent iff the lookup gave a value, carrying it |
| ScreenFeedback.RelayLoopStep | screen_capture_test.py:288-321 | each iteration drains as the mouse relay does and sends at most one ELEVATION, exactly when a capture exists, carrying 0.5 × the map cell at the pointer's clamped `//16` index, in [0, 0.5] |
| ScreenFeedback.RelayStepSendsPixelUnderPointer | screen_capture_test.py:312-321 | right after a capture, an iteration sends ELEVATION of 0.5 × the depth of the grid pixel under an on-screen pointer (B, G, R only for mss) |
| ScreenFeedback.RelaySessionSendsOnlyElevations | screen_capture_test.py:265-321 | a session sends ELEVATION(0.0) first and afterwards only elevations in [0, 0.5], at most one per iteration |
| ScreenFeedback.LoopSendsScaledElevations | screen_capture_test.py:288-321 | the loop sends only elevations in [0, 0.5], at most one per iteration |
| ScreenFeedback.BorderLoopStep | testing/screen_capture_test.py:232-262 | one iteration sends a border vibration only on a border change, then the elevation if there is one, and remembers the border value |
| ScreenFeedback.TickBorderValues | testing/screen_capture_test.py:240 | the border predicate, iteration by iteration |
| ScreenFeedback.StepVibrations | testing/screen_capture_test.py:240-256 | the vibrations of one iteration are the border edge it saw |
| ScreenFeedback.ScriptBorderIsEdges | testing/screen_capture_test.py:240-256 | over a session the vibrations are exactly the edges of the border predicate, and on_border ends as the last value |
| ScreenFeedback.InteriorSessionNeverVibrates | testing/screen_capture_test.py:223-262 | a session that never touches the border sends no vibration |
| DepthFeedback.SeqMinIsLeast | depth_map_feedback_test.py:73 | the minimum is below every value and is one of them |
| DepthFeedback.SeqMaxIsGreatest | depth_map_feedback_test.py:73 | the maximum is above every value and is one of them |
| DepthFeedback.GridBounds | depth_map_feedback_test.py:73 | every pixel lies between the image's minimum and maximum |
| DepthFeedback.GridExtremesAttained | depth_map_feedback_test.py:73 | both extremes occur in the image |
| DepthFeedback.NonConstantIffRange | depth_map_feedback_test.py:73-75 | an image has two different pixels iff its minimum is below its maximum, so only a constant image divides by zero |
| DepthFeedback.LevelInUnit | depth_map_feedback_test.py:74-75 | k/(zres-1) lies in [0, 1], with 0 and zres-1 at the ends |
| DepthFeedback.Spread | depth_map_feedback_test.py:74 | the stretched value t satisfies t·(max−min) = (v−min)·(zres−1), i.e. it is (v−min)/(max−min)·(zres−1); it lies in [0, zres-1], the minimum at 0 and the maximum at zres-1 |
| DepthFeedback.SpreadMonotone | depth_map_feedback_test.py:74 | a brighter pixel is spread no lower |
| DepthFeedback.LevelIndex | depth_map_feedback_test.py:74 | the rounded level is an index in [0, zres-1] |
| DepthFeedback.Quantise | depth_map_feedback_test.py:71-75 | a pixel becomes one of the zres levels, in [0, 1], the minimum 0 and the maximum 1; counted in steps of 1/(zres-1) the level is within a half of the spread value, and at exactly a half it is an even step |
| DepthFeedback.QuantiseIndex | depth_map_feedback_test.py:74-75 | the level, counted in steps, is an index in [0, zres-1] and is the spread value rounded half to even |
| DepthFeedback.QuantiseIsNearestLevel | depth_map_feedback_test.py:74-75 | no level is nearer the spread value than the one the pixel gets |
| DepthFeedback.QuantiseMonotone | depth_map_feedback_test.py:74-75 | a brighter pixel gets a level no lower, ties to even included |
| DepthFeedback.Scale | depth_map_feedback_test.py:71-75 | for a non-constant image the range is positive and every output cell is its pixel quantised between the image's minimum and maximum: some k/(zres-1) in [0, 1], the minimum pixels 0 and the maximum ones 1 |
| DepthFeedback.ScaleMonotone | depth_map_feedback_test.py:71-75 | scaling keeps the brightness order of the pixels |
| DepthFeedback.Invert | depth_map_feedback_test.py:66-67 | inversion maps every depth d to 1-d |
| DepthFeedback.InvertInvolution | depth_map_feedback_test.py:66-67 | inverting twice gives the map back |
| DepthFeedback.InvertedLevel | depth_map_feedback_test.py:66-67 | inverting a level gives a level |
| DepthFeedback.InvertKeepsLevels | depth_map_feedback_test.py:66-67 | inverting a map of levels gives a map of levels |
| DepthFeedback.ImageToDepthMap | depth_map_feedback_test.py:54-69 | the conversion yields a depth map of the image's shape whose cells are levels, with the darkest pixels 0 and the brightest 1, swapped exactly when invert is -1 |
| DepthFeedback.ImageToDepthMapOrder | depth_map_feedback_test.py:54-69 | the depth map follows the brightness order, reversed exactly when invert is -1 |
| DepthFeedback.FeedbackMapLevels | depth_map_feedback_test.py:39-75 | with zres 256 and inversion, every cell is a level, the brightest pixels are depth 0 and the darkest 1 |
| DepthFeedback.MouseCallback | depth_map_feedback_test.py:169-182 | ELEVATION(depth[y][x] × 0.5) is sent iff the event is a move inside the map and the core is ready; it lies in [0, 0.5] |
| DepthFeedback.CallbackExtremes | depth_map_feedback_test.py:169-182 | hovering the brightest pixel sends ELEVATION(0) and the darkest ELEVATION(0.5) |

## Left out

- Byte framing, checksums, float32 and int16 encoding, and guaranteed-delivery retries of the framing library: a packet is a header plus typed fields.
- The coordinator behind `plugin.*` (`add_capture_region`, `remove_capture_region`, `get_mouse_position`, `get_screen_size`, `hardware`): its calls are recorded, and whether each raises is a parameter. `RelativeElevationEffect` records `add_elevation_offset`, which the shown driver does not define; the model does not decide what that call does.
- Threads, locks, sleeps, polling intervals and wx/tk scheduling: each loop is modelled one iteration at a time, and a `wx.CallAfter` takes effect at once.
- GUI drawing, colour maps, timestamps and the text formatting of log lines: a log entry is its classification (stopped, or amplitude, frequency and duration).
- cv2, numpy, dxcam and mss image operations (grab, grey conversion, Gaussian blur, normalisation): the captured frame or grey image is an input.
- pyautogui: mouse movement and clicks are emitted `MoveRel` / `MouseDown` / `MouseUp` actions.
- The `event_*` logging methods of `touchpoint.py` other than `event_mouseMove`, dependency installation, packaging, the plotter and the compression script.
- IEEE-754 rounding: all floats are `real`.
- Handlers.CaptureCallback: `handlers.py` lines 139-140 divide by `self.region.width` and `self.region.height`, but the handler never sets a `region` attribute; the model divides by the `region` argument, which is what the surrounding lines use.
- Handlers.CaptureCallback: the grey conversion and blur are left out, so the map is taken as the normalised, possibly inverted image.
- Filters.GraphicMatches: `isinstance` on dicts and strings is modelled by a small closed set of attribute shapes; other values never count as video.
- Filters.GraphicMatches: the `[DEBUG] Error checking if image` line the exception branch logs before returning False (filters.py:115-117) is not produced; a filter is a predicate and records no calls.
- Handlers.AddHandler: handlers are values, so each list holds its own copy with the plugin set. `set_plugin` re-points the one shared handler object in place, so adding a handler that already sits in another manager's list also re-points that entry; the model does not represent this aliasing.
- EmulatorCore.AppendBounded: the widgets' line counting is modelled as one line per entry plus the empty line after the final newline, so a full log holds 99 entries.
- DepthFeedback.Scale: requires a non-constant image. On a constant one `scale` divides 0 by 0 in NumPy float arithmetic, which gives NaN in every cell (with a warning, not an exception), and NaN is outside the model's reals.
- ScreenFeedback.BorderLoopStep: requires a stored screen size; the script reads `screen_size` before any capture could have failed.
- Plugin.Connect: the plugin's exception handling around the camera and threads is reduced to the `enabled` outcome; the thread start is not modelled.
- `HardwareDriver.initialize` sends no ELEVATION_SPEED packet after the handshake (hardware_driver.py:21-34), and `Driver.Initialize` sends none either.
- The duplicated handlers and drain loops of `screen_capture_test.py` and `depth_map_feedback_test.py` have no rows of their own: they are the code modelled by `MouseRelay.OnMove`, `MouseRelay.OnButton` and `MouseRelay.DrainStep`.

## Findings

| source | as written | input that shows it | evidently intended | confidence | as-written member | corrected member |
|---|---|---|---|---|---|---|
| addon/globalPlugins/touchpoint/hardware_driver.py:50 | `_wait_for_ping` calls `self.logMessage`, which `HardwareDriver` does not define, so `initialize` raises AttributeError after the first flush and `enabled` stays True | a port that opens and a device that never answers: the driver still sends every command | log through the add-on's logger, so the handshake runs and a silent device disables the driver | not executed | Driver.InitializeAsWritten, Driver.AsWrittenStaysEnabled | Driver.Initialize |
| addon/globalPlugins/touchpoint/handlers.py:12 | `handlers = []` is a default evaluated once, so every manager built without a list shares one list object | two managers built without a list; a handler added to the first appears in the second | a fresh empty list for each manager | not executed | Handlers.NewManager, Handlers.DefaultListShared | Handlers.NewManagerFresh, Handlers.FreshListsIndependent |
