# Plant identifier: screen state, capture gate and history store

A Dafny model of the logic inside a small mobile-style web application that
identifies plants from a camera photo. The application keeps three pieces of
state in its root component (the current route, the plant in focus, and a
history of past identifications), shows one screen per route, offers a
four-entry bottom navigation bar, and runs a camera screen that, within one
mounted instance, sends at most one frame at a time to a recognition service.

The model has six modules, one per concern:

- `PlantTypes` (`types.dfy`): the `PlantInfo` record with its `careGuide`
  triple and its three optional bookkeeping fields, the six routes, and the
  decimal rendering of a clock reading that becomes a record's `id`.
- `HistoryStore` (`history.dfy`): stamping a recognised record, putting it in
  front of the history and cutting the history to 20 entries, and loading the
  saved history from its storage slot.
- `Layout` (`layout.dfy`): the navigation table, its buttons and which one is
  highlighted.
- `Navigation` (`navigation.dfy`): the route switch that picks the screen, the
  actions each screen offers, what each action does, and the invariant that
  every run of actions keeps.
- `AppShell` (`app.dfy`): the root component as a class whose fields are the
  state and the storage slot, with one method per handler.
- `Identify` (`identify.dfy`): the camera screen as a class with its three
  flags, proved to follow a pure step function, and the gate that admits at
  most one recognition at a time per camera-screen instance.

The camera, the canvas, the recognition service, the clock and the storage
are outside the model. Their outcomes are parameters: a camera outcome, a
drawing context that is there or not, a recognition result, two clock
readings, and a `parse`/`serialize` pair for the storage text.

Three things the proofs bring out about the code as written:

- The route never becomes `HISTORY`, and the detail route always has a plant
  (`Navigation.RunStaysConsistent`). So the "plant not found" fallback view and
  the bare browse screen for unknown routes are never shown. They are kept in
  the model because the route switch has them.
- When a capture finds no 2D drawing context, the screen is left scanning
  with no request outstanding. Nothing clears `isScanning` after that, so the
  capture button stays disabled until the screen is left
  (`Identify.NoContextStaysScanning`).
- When camera permission is granted after the video element is gone, the
  stream is neither attached nor stopped (`Identify.CaptureScreen.SetupCamera`).
  The cleanup stops tracks only when the video element reference still holds
  the element (`Identify.CaptureScreen.Teardown`). On unmount React has most
  likely cleared that reference before the cleanup runs, so in practice the
  camera stream is probably never stopped.

The `id` and the `timestamp` of a stored record come from two separate clock
readings, so they may differ by a millisecond. Ids are equal exactly when the
readings they come from are equal (`PlantTypes.DecimalRoundTrip`). So two
identifications within one millisecond get the same id, and the code does
nothing to prevent it.

The code neither makes ids unique nor checks the fields of the service's
answer. Ids come from the clock, and an answer is accepted whenever its text
is non-empty and parses as JSON; the type cast that follows checks nothing
(services/geminiService.ts:56). The model's `parse` always yields a complete,
well-typed record, so answers with missing or mistyped fields are outside it
(`Identify.RecognitionOf`).

## Model

| member | source | states |
|---|---|---|
| `PlantTypes.FieldNames` | types.ts:2-17 | the seven required fields are always present; `id`, `imageUrl` and `timestamp` are present exactly when set, and nothing else is |
| `PlantTypes.FreshCarriesOnlyRequired` | services/geminiService.ts:47 | the seven required fields are exactly the response schema's required list, and a record is fresh (no bookkeeping fields) exactly when it carries only those seven |
| `PlantTypes.RouteOf` | types.ts:19-26 | reading a route back from its string value gives a route with that value |
| `PlantTypes.RouteValuesDistinct` | types.ts:19-26 | every route is recovered from its string value, so the six values are pairwise distinct |
| `PlantTypes.Digits` | App.tsx:34 | a clock reading's decimal text is non-empty, all digits, and has no leading zero |
| `PlantTypes.DecimalString` | App.tsx:34 | the id text is non-empty, starts with a minus sign exactly for a negative reading, is otherwise all digits, and has no leading zero |
| `PlantTypes.DecimalRoundTrip` | App.tsx:34 | the id text reads back to the clock reading, so two ids are equal exactly when their clock readings are |
| `HistoryStore.Stamp` | App.tsx:32-36 | the stored record is the recognised one with `id` set to the first clock reading's text and `timestamp` to the second reading; every other field is unchanged |
| `HistoryStore.Append` | App.tsx:37 | the new history has length min(old length + 1, 20), starts with the new record, and continues with the first min(old length, 19) old records in order |
| `HistoryStore.AppendEvictsOldest` | App.tsx:37 | when the old history is full, the records dropped are exactly its last (oldest) ones |
| `HistoryStore.AppendAllKeepsNewest` | App.tsx:37 | after any non-empty run of identifications the history is the 20 most recent records, newest first, and never longer than 20 |
| `HistoryStore.OldestEvictedAfterTwentyOne` | App.tsx:37 | twenty-one identifications into an empty history keep the last twenty, newest first; only the first is evicted |
| `HistoryStore.Loaded` | App.tsx:15-24 | the loaded history differs from the current one only when saved text exists, is non-empty and parses, and then it is exactly the parsed list, not cut |
| `HistoryStore.SaveThenLoad` | App.tsx:15-29 | with a codec that reads back what it writes, saving then loading gives the same history; an absent, empty or unreadable slot loads as empty |
| `Layout.Buttons` | components/Layout.tsx:27-48 | one button per table entry, in table order; each leads to its entry's route and is highlighted exactly when that route is the active one |
| `Layout.HighlightCountDistinct` | components/Layout.tsx:33-44 | with distinct routes in the table, one button is highlighted when the active route is in the table and none otherwise |
| `Layout.NavTableShape` | components/Layout.tsx:12-17 | the table has four entries, home, identify, encyclopedia and profile in that order, with distinct routes that are exactly the bar's targets |
| `Layout.AtMostOneHighlighted` | components/Layout.tsx:12-44 | on any active route at most one button is highlighted, exactly one on a bar route; detail and history are never bar targets |
| `Navigation.Render` | App.tsx:47-108 | home shows the browse screen in the bar; identify the camera screen alone; detail the plant, or the fallback when none is selected; encyclopedia and profile a placeholder in the bar; history the browse screen without the bar |
| `Navigation.BarTaps` | components/Layout.tsx:27-30 | the bar offers a tap to each of its four target routes and to no other route |
| `Navigation.Selections` | App.tsx:52-54 | the browse screen offers to choose exactly the entries of the history it lists |
| `Navigation.Offered` | App.tsx:47-108 | inside the bar every bar route is offered and no other route; outside it no tap is; the browse screen offers choosing exactly its entries, and every other screen offers the way home; a finished recognition is never a user action |
| `Navigation.Dispatch` | App.tsx:31-45 | only a finished identification changes the history, which then stays within capacity; only choosing an entry or an identification changes the focus, and always to a plant; both open the detail route; the way home leads home |
| `Navigation.DispatchKeepsConsistent` | App.tsx:31-45 | any offered action, and any finished identification, keeps the route off HISTORY and keeps a plant selected on the detail route |
| `Navigation.RunStaysConsistent` | App.tsx:10-108 | along every run of actions neither the history route nor the missing-plant fallback is ever reached |
| `Navigation.Init` | App.tsx:10-12 | the first state has nothing selected, is consistent, and shows the empty browse screen inside the bar on the home entry |
| `Navigation.HomeIsOneStepAway` | App.tsx:62-101 | every screen but the browse screen offers the way home and taking it sets the route to home; the fallback offers that one action only |
| `Navigation.SelectAndTapKeepHistory` | App.tsx:42-45 | choosing a history entry focuses it and opens the detail route with the history unchanged; a bar tap changes only the route, to a bar route |
| `Navigation.IdentifiedRecordIsStored` | App.tsx:31-40 | a finished identification puts the stamped record in front, focuses it, and keeps the older records in order within capacity |
| `AppShell.App.constructor` | App.tsx:10-12 | the component starts on home, with nothing selected and an empty history, and the slot holds what an earlier session saved |
| `AppShell.App.Mount` | App.tsx:15-29 | on start the history becomes the loaded one and the slot is rewritten with the whole history; route and focus stay |
| `AppShell.App.HandlePlantIdentified` | App.tsx:31-40 | the state moves by the identification step, and the slot is rewritten with the whole new history |
| `AppShell.App.NavigateToDetail` | App.tsx:42-45 | focus the plant and open the detail route; history and slot unchanged |
| `AppShell.App.TapNavItem` | components/Layout.tsx:30 | the route becomes the tapped entry's route and nothing else changes |
| `AppShell.App.GoHomeButton` | App.tsx:62-101 | the close, back, fallback and placeholder buttons set the route to home and change nothing else |
| `Identify.CaptureDisabled` | components/Identify.tsx:175 | the button's disabled state agrees with the handler's guard: with references and a context present, a tap is ignored exactly when the button is disabled |
| `Identify.LoadingOverlay` | components/Identify.tsx:85-90 | while the starting-camera overlay shows, no message shows, the button is disabled and every tap is ignored |
| `Identify.Step` | components/Identify.tsx:18-72 | a live camera stays live; each event starts at most one call, and only a tap on an enabled button does; only a failed answer to an outstanding call turns scanning off |
| `Identify.CaptureGate` | components/Identify.tsx:44-54 | a recognition starts exactly when the refs exist, the button is enabled and a drawing context is there; with the button disabled the handler does nothing; a start sets scanning and clears the message |
| `Identify.StepKeepsSafe` | components/Identify.tsx:44-72 | each event keeps at most one call outstanding, with scanning on while one is |
| `Identify.AtMostOneInFlight` | components/Identify.tsx:44-72 | along every run of events of one camera-screen instance at most one of its recognitions is outstanding, and its capture button is disabled while one is |
| `Identify.CompletionOutcomes` | components/Identify.tsx:63-69 | a failure shows the retry message and turns scanning off; a success leaves the flags as they were, still scanning |
| `Identify.NoContextStaysScanning` | components/Identify.tsx:52-54 | once a tap finds no drawing context, no later event clears scanning and the button stays disabled |
| `Identify.CameraOutcomes` | components/Identify.tsx:18-34 | an attached stream makes the camera live; a denial sets the permission message, leaves the camera off and every later tap does nothing; the overlay shows only while neither happened |
| `Identify.DeniedIgnoresTaps` | components/Identify.tsx:45 | while the camera is not live every capture tap leaves the screen unchanged |
| `Identify.WithPreview` | components/Identify.tsx:64-65 | the description handed on is the recognised one with the preview as its image |
| `Identify.StoredRecordFromCapture` | components/Identify.tsx:65 | the stored record differs from the recognised one only in its image and its two bookkeeping fields, and a fresh record comes out carrying all ten fields |
| `Identify.RecognitionOf` | services/geminiService.ts:52-56 | an answer is a recognition exactly when its text is present, non-empty and parses, and then it is the parsed record |
| `Identify.CaptureScreen.constructor` | components/Identify.tsx:14-16 | the screen starts not scanning, with no message and the camera off, so the overlay shows and the button is disabled |
| `Identify.CaptureScreen.SetupCamera` | components/Identify.tsx:18-34 | the flags move by the camera step; only an attached stream is kept for teardown; unless the video element was gone, the overlay disappears |
| `Identify.CaptureScreen.HandleCapture` | components/Identify.tsx:44-62 | the flags move by the tap step, and a request is made exactly when the refs exist, the button was enabled and a context is there |
| `Identify.CaptureScreen.Complete` | components/Identify.tsx:63-70 | on success the preview-stamped description is handed on and the flags stay; on failure the retry message shows and scanning stops |
| `Identify.CaptureScreen.Teardown` | components/Identify.tsx:36-41 | when the video element reference still holds the element and a stream is attached, every one of its tracks is stopped; when the reference is cleared no track changes |

## Left out

- Camera and canvas calls (`getUserMedia`, `drawImage`, `toDataURL`) are not modelled. Their outcomes are parameters: a camera outcome, whether the element references and a 2D context exist, and an opaque preview string.
- The recognition service and its network call are not modelled. An answer is a `Recognition` value, and the response text with its JSON parsing is an abstract `parse`.
- `Identify.RecognitionOf`: `parse` stands for `JSON.parse` of the trimmed text followed by the unchecked `as PlantInfo` cast (services/geminiService.ts:56), and it returns only complete, well-typed records. The code also accepts answers that lack required fields, have mistyped fields or are not objects at all, and these are outside the model. A fractional `difficulty` is inside it, since `difficulty` is a `real`.
- Browser storage and JSON text are an abstract slot with a `serialize` and a `parse` that may fail. A saved value that parses to something other than a list of records is not modelled: `parse` returns a list or nothing.
- The clock is two integer parameters, one for the `id` and one for the `timestamp`. Nothing is assumed about their order or uniqueness.
- `PlantTypes.DecimalString`: does not model the exponent notation JavaScript uses for numbers of 1e21 and more, since clock readings are far below that.
- The scheduling of React effects and renders is left out. `AppShell.App.Mount` is the net effect of the load and save effects on start. A setter call takes effect at once, rather than at the next render.
- The screens' markup is left out, and so are the browse and detail screens' display formatting (star fill, image fallbacks). `Navigation.Screen` records only which screen shows, with its data.
- A recognition that finishes after the camera screen was left still reaches the root handler. The model allows `Identified` in any state rather than tracking which screen sent the request.
- `Identify.AtMostOneInFlight`: the gate lives in one camera-screen instance. The close button stays enabled while a call is outstanding (components/Identify.tsx:101-102), leaving the screen does not cancel the call, and re-entering through the bar mounts a fresh instance whose flags start over (components/Identify.tsx:14-16). So the application as a whole can have more than one recognition outstanding, and each answer stores a record and opens the detail route. The model states the bound per instance only; the late answers themselves are covered by `Identified` being admissible in any state.
- `Identify.CaptureScreen.Teardown`: whether the video element reference still holds the element at cleanup is a parameter, `videoRefPresent`, because the order in which React clears references and runs effect cleanups is not modelled. On unmount the reference is most likely already cleared, which is the `videoRefPresent == false` case, where no track is stopped. The method also states nothing about tracks when no stream is attached. There are none to stop: `Valid` ties "not attached" to an empty stream, and a stream granted after the video element is gone is not kept by the component.
