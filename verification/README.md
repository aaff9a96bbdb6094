# The keyboard core of QMK/Vial, modelled and verified in Dafny

A keyboard's firmware decides what a key press means: whether a key is tapped or held, which layer it is read from,
what its keycode does, and what the host may change about all that. This project models the parts of the firmware in
which that is hardest to get right, together with two small algorithms and the file converters beside them, and proves
what they are for.

Code that changes state step by step is a class whose methods are proved against functions on values; the theorems are
lemmas about those functions, over every input and every run. Time is what the code sees, a 16-bit or 32-bit word;
where a theorem speaks of real time, the word is the real time modulo its width.

| files | what they are about |
|---|---|
| `events`, `tapping`, `tapping_engine` | the tap-hold state machine and its waiting buffer: as functions, and as a class over the eight-slot ring |
| `tapping_order`, `tapping_drain`, `tapping_synthetic` | conservation and per-key order, bounded drain, made-up releases |
| `tapping_trail`, `tapping_decision`, `tapping_turns`, `tapping_permissive` | where each record came from; why a key was a tap or a hold; decisions made out of turn; when permissive hold decides |
| `tapping_laws`, `tap_keys` | what single events do in each situation; which keycodes make tap-hold keys, and which releases wait |
| `tapping_scenarios`, `encoder_scenario`, `overlooked_release` | repeated taps of any number, and concrete runs that show where order, decisions and the host's view fail |
| `bits`, `matrix` | the C bit operators on words of any width; the matrix scanner with its ghost check |
| `host_view`, `keyboard` | what the host is told of a key; scanner and tap-hold engine put together |
| `layer_cache`, `layer_actions` | layer resolution with the bit-sliced source-layer cache; compiling and executing layer keycodes |
| `radix`, `keymap_layout`, `keymap_store`, `keymap_buffer`, `macros`, `keymap_laws` | the EEPROM layout, its accessors, bulk writes with the keycode filter, the macro decoder; the formats in numbers |
| `deferred_exec`, `deferred_tokens`, `deferred_time` | the deferred executor, its tokens, and its 32-bit clock against unbounded time |
| `bytes`, `uf2`, `uf2_image`, `uf2_families`, `hex_uf2`, `hex_text`, `hex_image` | UF2 and Intel HEX conversion: the blocks byte by byte, what the text means, and the memory image that comes out |
| `crc8`, `unlock` | the bitwise CRC-8 and the timed unlock protocol |

`dafny verify dfyconfig.toml` checks everything.

In the tap-hold model, the action of a key, the two terms and the two mode flags are arbitrary functions of everything
received and processed so far, so the theorems hold for any keymap, layer behaviour and user code. The configuration
is fixed as: no chordal hold, no retro shift, no re-entry, `process_record` a sink.

## Where the code does not do what one might expect

- Per-key order is not kept in general. The retry loop of `quantum/action_tapping.c:140-148` can stop with the tapping
  key settled and records still waiting; an event of a key that waits is then emitted ahead of it.
  `ReleaseOvertakesPress` is such a run of four events, and `RunOrderIff` says exactly when it cannot happen, by a
  condition on each arrival that can be read off the state before it.
- `quantum/dynamic_keymap.h:86-88` says the macro buffer may hold fewer macros than the maximum. When the buffer is
  full, sending the macro numbered one past the last reads behind the area (the code compares with the end before each
  skip, but not after the last one). `StaysInAreaIff` gives the exact number.
- The comment at `quantum/dynamic_keymap.c:505-506` says a null at the end keeps the decoder inside the buffer. That
  null does not help a decoder that starts behind it, which is the case above.
- Because of that same stop of the retry loop a hold is not always earned. A tap-hold press that takes over while an
  older record waits is measured against that record, which seems to come 65 seconds late: it is a hold at once
  (`HeldAtOnce`, also with every arrival safe). `StepOutOfTurnIff` gives the exact condition for any state and mode,
  `RunDefaultInTurnIff` the plain one for whole runs in the default mode when what waits is recent.
- A key let go within its term can still be a hold: when it is pressed again after a tap and both its press and its
  release had to wait, the press takes over without a look at what waits (`quantum/action_tapping.c:535-538`), and the
  release is not tried until something else has settled it. `OverlookedIff` says when, `HeldThoughReleased` is such a
  run.
- The table at `quantum/action_code.h:76` says layer-tap codes 0xE0 to 0xEF are no tap keys; `is_tap_action` takes
  0xE0 to 0xE7 for ones (`TapHoldKeys`).
- Permissive hold also settles the tapping key when a modifier that was down before is released and pressed again
  (`PermissiveHoldWithoutNestedTap`): the release has to wait and is tried again once its counterpart waits behind it.
  `WaitingReleaseDecidesIff` and `PermissiveHoldIff` say exactly when.
- The releases made up in `quantum/action_tapping.c:438-453` and `:489-501` are for a key that is still held. Until it
  is let go the host has it as up, and then hears a second release. The theorems of `Keyboard` about the host and
  `RunMadeUpIff` say exactly when.
- The two directions of an encoder share one entry of the source-layer cache (`quantum/action_layer.c:274-277`), so "a
  release uses the layer of its press" holds for keys of the matrix, and for encoders under the condition of
  `EncoderReleaseIff`.
- A deferred callback that is overdue by more than half a turn of the 32-bit clock is skipped; `TaskRefinesIff` says
  when, and `RepeatingTimerFallsBehind` is a run that gets there with passes less than half a turn apart.
- Reading one family out of a UF2 file, `util/uf2conv.py:68-79` writes the gaps between the blocks of the other
  families as zeros, although it leaves out their data. `ChosenFamilyIff` says when the image is right all the same.
- `util/uf2conv.py:174-175` takes the first character of every line. Text that ends in a newline and has no end record
  is therefore refused at the empty line behind it (`BrokenTextIsRefused`). Length and checksum of a record are not
  looked at (`TextStores`).
- In `util/uf2conv.py:52` and `:59` the message concatenates a string and an integer, so a bad magic number ends the
  conversion with a TypeError although the message says that the block is skipped. The model returns an error there.

## Model

| member | source | states |
|---|---|---|
| TappingEngine.Engine.ActionTappingProcess | quantum/action_tapping.c:119-152 | For every event, the engine with its eight-slot ring and 16-bit times takes exactly the step of the abstract machine (event taken in or queued or everything cleared, then the retry loop), so every theorem about runs of that machine is one about the engine. |
| TappingEngine.Engine.AcceptEvent | quantum/action_tapping.c:119-134 | The event is consumed, or queued behind the others, or on a full ring the ring is emptied, the keyboard cleared and the tapping key forgotten. |
| TappingEngine.Engine.DrainWaiting | quantum/action_tapping.c:140-148 | The retry loop stops at the first waiting record that is not consumed, which stays in its slot, as the attempt has changed it. |
| TappingEngine.Engine.RetryTail | quantum/action_tapping.c:141-147 | One attempt: the record leaves the ring exactly when it is consumed. |
| TappingEngine.Engine.ProcessTappingKey | quantum/action_tapping.c:205-568 | The whole decision, for every combination of tapping key, waiting records, event and mode answers. |
| TappingEngine.Engine.ProcessWhenReset | quantum/action_tapping.c:224-242 | Without a tapping key only a press of a tap-hold key is held back, and a release already waiting for it settles it at once. |
| TappingEngine.Engine.ProcessWhenUnsettled | quantum/action_tapping.c:256-427 | An undecided press within its term: own release, nested tap, other presses, early releases and releases held back. |
| TappingEngine.Engine.ProcessWhenSettled | quantum/action_tapping.c:429-514 | A decided key that is still down: its release gets the tap count, a new tap-hold press takes over after a made-up release where the code makes one. |
| TappingEngine.Engine.ProcessWhenReleased | quantum/action_tapping.c:518-557 | A tapped key that is up: a quick second press counts on, anything else starts anew. |
| TappingEngine.Engine.WaitingBufferEnq | quantum/action_tapping.c:574-590 | Refused exactly when seven records wait; otherwise a non-tick record becomes the last one waiting and no other changes. |
| TappingEngine.Engine.WaitingBufferClear | quantum/action_tapping.c:596-599 | Whatever waited, nothing does any more, and the ring is fit for use. |
| TappingEngine.Engine.WaitingBufferTyped | quantum/action_tapping.c:605-612 | True exactly when an event of the same key in the other direction waits, wherever the ring has wrapped. |
| TappingEngine.Engine.WaitingBufferScanTap | quantum/action_tapping.c:629-656 | The first waiting release of the tapping key within its term, and only that one, settles it as tapped once and is itself marked. |
| TappingOrder.ProcessTappingMoves | quantum/action_tapping.c:205-568 | Whatever branch is taken, no event is lost or doubled: the one at hand is consumed exactly when it has become the last one emitted or the unsettled press; an unsettled key within its term consumes only a release that overtakes it. |
| TappingOrder.UnsettledMoves | quantum/action_tapping.c:326-371 | While a press is undecided, another key is emitted ahead of it exactly when it is a release whose press does not wait and whose action need not be held back. |
| TappingOrder.DrainKeeps | quantum/action_tapping.c:140-148 | The retry loop keeps the invariant and, key by key, the order of everything emitted, pending and waiting. |
| TappingOrder.RunInv | quantum/action_tapping.c:119-656 | On every run at most seven records wait, waiting presses have count 0 and a released tapping key has count at least 1 (the state line 632 calls invalid is unreachable). |
| TappingOrder.RunConserves | quantum/action_tapping.c:119-568 | On every run without overflow, emitted events, the undecided press and the waiting ones are together exactly the events received, each once. |
| TappingOrder.StepOrderIff | quantum/action_tapping.c:119-568 | For events that take turns per key, a step keeps every key in order if and only if the arrival is safe: a tick, or no waiting event of its key, or a press still undecided, or a released tapping key whose term is over. |
| TappingOrder.RunOrderIff | quantum/action_tapping.c:119-568 | Over whole runs, every key stays in order throughout if and only if every arrival is safe. |
| TappingOrder.OrderedPrefix | quantum/action_tapping.c:119-568 | On such runs what is emitted of a key is a prefix of what its switch did, so no release precedes its press although early releases overtake other keys. |
| TappingOrder.ConsumedBreaksOrder | quantum/action_tapping.c:137-148 | The arrival condition cannot be dropped: an event consumed while one of its own key waits always loses the order. |
| TappingDrain.LateTickShortens | quantum/action_tapping.c:469-480 | From any state of the invariant a tick past the term strictly shortens a non-empty buffer; with an empty one it leaves no press undecided. |
| TappingDrain.LateTicksShorten | quantum/action_tapping.c:137-148 | Seven late ticks empty the buffer and an eighth leaves nothing undecided. |
| TappingDrain.EverythingIsDelivered | quantum/action_tapping.c:137-148 | After any run without overflow, eight late ticks later every event received has been handed over exactly once. |
| TappingDecision.RunJustified | quantum/action_tapping.c:256-480 | In every mode and on every run, every key handed over was decided for a reason: with count 1 by its own release within the term; with count 0 by something at least the term later, by a press within the term under hold-on-other-key-press, or under permissive hold by the release within the term of another key whose press is there too. Unless the press took over while an older record waited, the reason was received after it, and so was that other press. |
| TappingDecision.DefaultModeDecision | quantum/action_tapping.c:256-268 | With both modes off, every decision with count 1 has a release of the key within the term, and every one with count 0 something at least the term later; received after the press, unless the press took over past an older record. |
| TappingDecision.HeldForPress | quantum/action_tapping.c:373-427 | Where keys take turns, a key decided by a press received later is decided by one of another key, or had been let go before that press. |
| TappingTurns.StepOutOfTurnIff | quantum/action_tapping.c:119-148 | From every kept state and in every mode, the next event makes for a key to be decided by a record older than its press if and only if it takes over with its release already waiting, or leaves an undecided press to a retry loop in which an older record decides it before any record that has to wait. |
| TappingTurns.RunInTurnIff | quantum/action_tapping.c:119-568 | Over whole runs, every decision was made by something received after the press if and only if no event met that condition. |
| TappingTurns.DefaultOutOfTurnIff | quantum/action_tapping.c:140-148 | In the default mode, with keys in order and nothing waiting for an undecided press but what came later or at the same time, that comes down to: a press takes over while a record with an older time waits (what waits being recent: not so old that it seems to come within the term again). |
| TappingTurns.RunDefaultInTurnIff | quantum/action_tapping.c:140-148 | Over whole runs in the default mode, with keys in order and what waits recent: every decision was made by something received after the press if and only if no press took over while a record with an older time waited. |
| TappingPermissive.WaitingReleaseDecidesIff | quantum/action_tapping.c:288-325 | In every mode and from every state with room in the buffer: an event that decides nothing by itself, as does not what waits longest, makes the step hand over the undecided key if and only if it presses again the key whose release waits longest, and permissive hold is on for the tapping key. |
| TappingPermissive.PermissiveHoldIff | quantum/action_tapping.c:288-325 | Under permissive hold with steady settings, after any run: an event within the term of the undecided key and not its own release makes it a hold if and only if it is the release of a press that waits, or presses again the key whose release waits longest. |
| TappingTurns.TakenPastIsHeld | quantum/action_tapping.c:469-477 | Such a press is handed over as a hold by the very step that receives it, with nothing received after it. |
| TappingSynthetic.SyntheticReleasesAreCovered | quantum/action_tapping.c:438-453 | On every run a made-up release is for a key that a multiple tap of the same count has put down and that nothing has let go since. |
| TappingSynthetic.MadeUpIff | quantum/action_tapping.c:438-453 | A call makes up a release of a key if and only if a press takes over from that key while it is held after more than one tap. |
| TappingSynthetic.RunMadeUpIff | quantum/action_tapping.c:438-453 | Over whole runs: a release of a key was made up if and only if at some event, or in the retry loop behind it, a press took over from it in that way. |
| TappingScenarios.TapsAreCounted | quantum/action_tapping.c:524-535 | However many quick taps in a row, press and release of the i-th are emitted at once or at the release with count i, up to 15. |
| TappingScenarios.InterruptedSeriesStartsAnew | quantum/action_tapping.c:546-551 | A plain key pressed after a tap breaks the series: the key pressed again is undecided, with nothing emitted for it. |
| TappingScenarios.PressedAgainIff | quantum/action_tapping.c:524-538 | After any number of quick taps the next press of the key is handed over at once with the next count if and only if it comes within the quick tap term and the tapping term of the last release; otherwise it starts anew, undecided and with nothing emitted for it. |
| TappingScenarios.LateReleaseEndsSeries | quantum/action_tapping.c:482-486 | A release that comes the term or more after its press, whether that was handed over already or not, ends the series: whenever the key is pressed again, it is undecided and nothing is emitted for it. |
| TappingScenarios.HoldEndsTaps | quantum/action_tapping.c:482-486 | The same over whole runs: after any number of quick taps and one more press held for the term or longer, the next press at any time is undecided and nothing is emitted for it. |
| TappingLaws.PressWhileUndecided | quantum/action_tapping.c:119-134 | While a key is undecided, another press that does not settle it waits behind all others and marks the key as interrupted; with seven records waiting everything is forgotten and the keyboard cleared. |
| TappingLaws.ReleaseWhileUndecided | quantum/action_tapping.c:256-268 | Its own release within the term, with nothing else waiting, makes it a tap: press and release are handed over one after the other, both with count 1 and the same mark. |
| TappingLaws.OthersWhileTapped | quantum/action_tapping.c:430-466 | While a key is down as a tap, ticks do nothing and the events of plain keys and other releases pass at once; nothing about the key changes. |
| TappingLaws.ReleaseWhileTapped | quantum/action_tapping.c:430-437 | Its release is handed over at once with the count and the mark of its press. |
| TappingLaws.OverlookedIff | quantum/action_tapping.c:535-538 | When a press takes over, its release within the term waits unnoticed if and only if it waits at all and the same key had just been tapped: only then is the buffer not scanned. |
| TappingLaws.PressMeetsReleaseIff | quantum/action_tapping.c:629-656 | A tap-hold press that arrives and takes over otherwise is decided at once if and only if its release within the term waits already. |
| OverlookedRelease.HeldThoughReleased | quantum/action_tapping.c:535-538 | A run in the default configuration in which a key is down for 20 ms of its 200 for the second time and is handed over as a hold. |
| TapKeys.TapHoldKeys | quantum/action.c:1187-1208 | Which keycodes make tap-hold keys: mod-taps and layer-taps with a code up to 0xE7 or 0xF0 or 0xF4, one-shot keys, the tap toggle, and swap-hands keys with a code up to 0xE7 or 0xF1; no others. |
| TapKeys.HeldBackKeys | quantum/action_tapping.c:343-366 | Released while another key is undecided, exactly modifiers, mod-taps unless tapped, and keys that can hold a layer have to wait; everything else is let go at once. |
| TappingScenarios.ReleaseOvertakesPress | quantum/action_tapping.c:140-148 | A four-event run, in the default configuration and without overflow, in which a release is emitted while its press still waits; its last arrival is the unsafe one. |
| TappingScenarios.HeldAtOnce | quantum/action_tapping.c:140-148 | A four-event run in the default configuration, every arrival safe and nothing lost, in which a tap-hold press is handed over as a hold in the step that receives it, 4 ms after a press that waits. |
| TappingScenarios.PermissiveHoldWithoutNestedTap | quantum/action_tapping.c:326-371 | A run under permissive hold in which a modifier that was down is released and pressed again, and the tapping key is held for that. |
| TappingScenarios.HostLosesHeldKey | quantum/action_tapping.c:438-453 | A run that ends idle with a key held on its switch and told to the host as up; letting it go tells the host a second time. |
| Bits.MoreThanOneIff | quantum/keyboard.c:241-244 | `x & (x - 1)` is non-zero exactly when at least two different bits are set, for words of any width. |
| Matrix.SharedWord | quantum/keyboard.c:246-268 | The word compared for two rows has two bits exactly when they share two columns of real keys. |
| Matrix.FewKeysNoGhosts | quantum/keyboard.c:246-251 | The early return is right: with fewer than two real keys down a row shares two columns with no other. |
| Matrix.GhostsComeInPairs | quantum/keyboard.c:246-268 | The relation is symmetric: a suspect row makes another row suspect. |
| Matrix.Scanner.GetRealKeys | quantum/keyboard.c:229-239 | The loop keeps exactly the bits of switches that exist. |
| Matrix.Scanner.HasGhostInRow | quantum/keyboard.c:246-268 | True exactly when the row shares two real columns with another row. |
| Matrix.Scanner.RowTask | quantum/keyboard.c:621-632 | One event per changed column, in column order. |
| Matrix.Scanner.ProcessRow | quantum/keyboard.c:613-635 | A suspect row emits nothing and keeps its old word; another one is taken over whole; other rows are left alone. |
| Matrix.Scanner.MatrixTask | quantum/keyboard.c:585-638 | All events of a scan in order and every word of `matrix_previous` after it; changed exactly when the scan differs. |
| Matrix.ScanInOrder | quantum/keyboard.c:613-635 | The events of a scan come row by row and column by column; each is a key event, carries the time at which its position was handled, and tells press or release as the switch was read. |
| Matrix.StreamTellsState | quantum/keyboard.c:585-638 | Over any sequence of scans each key's events take turns, start with a press, and replayed give exactly `matrix_previous`. |
| Matrix.RowShowsLatestSoundScan | quantum/keyboard.c:613-635 | After any scans a row, and each of its keys, is known as it was in the latest scan in which the row was not suspect, however many came since. |
| Keyboard.ScannedInputAlternates | quantum/keyboard.c:585-638 | Whatever is scanned, with ticks anywhere in between, the tapping engine is fed events that take turns key by key. |
| Keyboard.SwitchIsFollowed | quantum/action_tapping.c:119-568 | With safe arrivals and no overflow, what is processed of a key, made-up releases aside, is press, release, press, and a prefix of what its switch did. |
| Keyboard.HostHearsTurnsIff | quantum/action_tapping.c:438-453 | All that is processed of a key, made-up releases included, is press, release, press if and only if no made-up release of it was followed by another event of it. |
| Keyboard.IdleHostKnowsMatrixIff | quantum/keyboard.c:585-638 | When the engine is idle the host has a key as `matrix_previous` has it if and only if the last processed of that key was not a made-up release; if it was, the key is held and the host has it as up. |
| Keyboard.HostKeepsKey | quantum/action_tapping.c:438-453 | As long as no press has taken over from a key in that way, the host hears press, release, press of it, and with the engine idle has it as `matrix_previous` has it. |
| LayerCache.TopLayer | quantum/action_layer.c:335-355 | The layer found is on and not transparent for the key, and none above it is both; 0 when there is none. |
| LayerCache.Cache.Update | quantum/action_layer.c:236-242 | Through the bit-sliced bytes: one entry takes the layer, every other entry keeps its own. |
| LayerCache.Cache.Read | quantum/action_layer.c:248-258 | Reads the layer last stored for that entry. |
| LayerCache.MatrixSlotsApart | quantum/action_layer.c:269-271 | Two keys of the matrix never share a cache entry, for any matrix size. |
| LayerCache.LayerSwitch.LayerSwitchGetLayer | quantum/action_layer.c:335-355 | The downward loop finds the highest layer below the number of layers whose bit is set in the layer word or in that of the default layers and whose action for the key is not transparent; 0 if there is none. |
| LayerCache.ResolveIff | quantum/action_layer.c:335-355 | The layer a key resolves to is the one layer with that property, told by the bits of the two words. |
| LayerCache.LayerSwitch.UpdateSourceLayersCache | quantum/action_layer.c:264-279 | The two caches together refine one map from cache entries to layers: one entry changes; positions outside change nothing. |
| LayerCache.LayerSwitch.ReadSourceLayersCache | quantum/action_layer.c:285-301 | Reads that map; 0 outside it. |
| LayerCache.LayerSwitch.StoreOrGetAction | quantum/action_layer.c:311-329 | A press resolves and remembers its layer, a release recalls it, and the action is that layer's; what a press resolves to is told by the bits of the two layer words. |
| LayerCache.ReleaseUsesPressLayer | quantum/action_layer.c:304-329 | Over any presses, releases, layer and keymap changes, a release recalls the layer its entry's latest press resolved to at that time. |
| LayerCache.MatrixReleaseUsesOwnPress | quantum/action_layer.c:304-329 | For a key of the matrix that is its own latest press, whatever other keys did: the highest layer that was on then, or a default one, and not transparent for it. |
| LayerCache.NeverPressedRecallsZero | quantum/action_layer.c:285-301 | A key without an entry, or whose entry no press has used yet, is released on layer 0, whatever else was pressed. |
| LayerCache.EncoderReleaseIff | quantum/action_layer.c:264-301 | The release of an encoder direction recalls the layer of its own latest press if and only if the latest press of the other direction since, if any, was resolved to the same layer. |
| LayerCache.EncoderReleaseDiffers | quantum/action_layer.c:274-277 | A keymap of two layers with which that fails: the release finds a layer on which the direction has no action. |
| EncoderScenario.TurnOvertakesRelease | quantum/encoder.c:36-48 | The order needed does arise: a run of the tap-hold engine, fed press and release of a turn one after the other, processes the release behind the press of the opposite turn. |
| EncoderScenario.TurnReleasedOnOtherLayer | quantum/action_layer.c:304-329 | The records of that run, in the order processed, make the cache recall a layer for the release that its press was not resolved to. |
| LayerActions.LayerState.ProcessAction | quantum/action.c:572-651 | Carrying out a layer action changes the two layer words as specified, cut to the width of the layer word. |
| LayerActions.BitopMeaning | quantum/action.c:594-614 | A bitwise action acts on the default layers on release if it names no edge, else on the layers on exactly the edges it names; each layer becomes and, or, exclusive or, or the operand's bit; everything else stays. |
| LayerActions.LayerTapMeaning | quantum/action.c:643-651 | The layer-tap codes 0xF1, 0xF2 and 0xF3: a layer on while held, off while held, and this layer alone while held and none after; any other code leaves the layer words alone. |
| LayerActions.PackedBitop | quantum/action_code.h:213-225 | Packing a layer as nibble and part and unpacking it puts the one bit back, for layers 0 to 31, with every field intact. |
| LayerActions.PackedTap | quantum/action_code.h:226-230 | Layers 16 to 31 spill into the kind field and are caught as `ACT_LAYER_TAP_EXT` with the layer intact. |
| LayerActions.KeyMeaning | quantum/keymap_common.c:111-131 | Compiling TO, MO, TG or DF and executing the action does to the sets of layers what the keycode means, for every layer that fits the word, on press and on release. |
| LayerActions.SequenceMeaning | quantum/action.c:572-651 | The same for any sequence of layer key events, and no bit outside the word is ever set. |
| LayerActions.SameWordsIff | quantum/action.c:572-651 | Two sequences of layer key events leave the very same layer words if and only if they mean the same for the sets of layers. |
| KeymapLayout.CellsApart | quantum/dynamic_keymap.c:65-129 | For all layer, row, column, encoder and entry counts, two different cells of any kind share no byte. |
| KeymapLayout.CellInMemory | quantum/dynamic_keymap.c:65-129 | Every valid cell lies wholly between the start and the highest EEPROM address. |
| KeymapLaws.KeyIsAt | quantum/dynamic_keymap.c:139-151 | A key's keycode is the big-endian number at start + 2 * ((layer * rows + row) * columns + column). |
| KeymapLaws.EncoderIsAt | quantum/dynamic_keymap.c:162-173 | An encoder's keycode is the one at four bytes an encoder and layer behind the keys, clockwise before counter-clockwise. |
| KeymapLaws.BytesAreAt | quantum/dynamic_keymap.c:65-129 | Settings lie byte by byte behind the encoders, macro bytes behind all entries, up to the highest address. |
| KeymapLaws.EntriesAreAt | quantum/dynamic_keymap.c:202-266 | Tap-dance, combo and override entries lie in this order behind the settings, ten bytes each. |
| KeymapStore.WriteSeenOnlyThere | quantum/dynamic_keymap.c:139-266 | A write through one accessor is read back by the accessor of that cell and changes what no other one reads. |
| KeymapStore.ReadsLastWrite | quantum/dynamic_keymap.c:139-266 | After any sequence of writes through any accessors, in range or not, every cell reads as its own last write. |
| KeymapStore.KeycodeReadsBack | quantum/dynamic_keymap.c:144-181 | A keycode set for a key or encoder direction is the one got for it afterwards, and every other one is got as before. |
| KeymapStore.Store.GetKeycode | quantum/dynamic_keymap.c:144-151 | The big-endian keycode of the cell, or KC_NO outside the keymap. |
| KeymapStore.Store.SetKeycode | quantum/dynamic_keymap.c:153-159 | Writes both bytes of that cell; outside the keymap nothing changes. |
| KeymapStore.Store.GetEncoder | quantum/dynamic_keymap.c:166-173 | The keycode of the encoder direction, or KC_NO out of range. |
| KeymapStore.Store.SetEncoder | quantum/dynamic_keymap.c:175-181 | Writes that direction only; out of range nothing changes. |
| KeymapStore.Store.GetSetting | quantum/dynamic_keymap.c:185-191 | The byte at the offset, or 0 behind the settings. |
| KeymapStore.Store.SetSetting | quantum/dynamic_keymap.c:193-199 | Writes that byte only; behind the settings nothing changes. |
| KeymapStore.Store.GetEntry | quantum/dynamic_keymap.c:202-255 | Tap-dance, combo and override entries: refused exactly when the index is too large, else the whole entry. |
| KeymapStore.Store.SetEntry | quantum/dynamic_keymap.c:213-266 | Refused exactly when the index is too large, and then nothing changes; else exactly that entry. |
| KeymapStore.Store.MacroGetBuffer | quantum/dynamic_keymap.c:418-430 | The macro bytes asked for, with zeros behind the area. |
| KeymapStore.Store.MacroSetBuffer | quantum/dynamic_keymap.c:432-442 | Writes the bytes that fall inside the area one by one and drops the others. |
| KeymapBuffer.GetBuffer | quantum/dynamic_keymap.c:321-334 | The bytes of the big-endian keymap at any offset, with zeros behind it. |
| KeymapBuffer.SetBuffer | quantum/dynamic_keymap.c:336-392 | A piece that does not fit is ignored; an empty one changes nothing; unlocked, it is blitted as it is at any alignment; locked, its filtered form is, and is left in the caller's buffer. The one call after which nothing is claimed is told: locked, an empty piece at an odd offset inside the keymap. |
| KeymapBuffer.FilterBuffer | quantum/dynamic_keymap.c:347-381 | Both half-overwritten edge keys and the pair loop together compute the byte-wise filter, as long as every byte looked at is one of the piece. |
| KeymapBuffer.LooksInsideIff | quantum/dynamic_keymap.c:347-381 | Every byte of the caller's buffer that the check looks at lies in the piece if and only if the piece is not empty or its offset is even; otherwise the 16-bit loop bound has wrapped around. |
| KeymapBuffer.FilteredWrite | quantum/dynamic_keymap.c:347-381 | Key by key: outside the piece nothing changes; a key that would not be QK_BOOT is stored as sent; one that would be is stored as something else. |
| KeymapBuffer.VerbatimIffHarmless | quantum/dynamic_keymap.c:347-381 | The piece is stored as sent if and only if it makes no key QK_BOOT. |
| KeymapLaws.BootBecomesInvalid | quantum/dynamic_keymap.c:347-381 | By bytes: of a key that would become 0x7C00 every byte in the piece is stored as 0xFF; every other byte is stored as sent. |
| KeymapBuffer.LockedNeverGainsBoot | quantum/dynamic_keymap.c:336-392 | However a host cuts and aligns its pieces, no key of a locked keyboard becomes QK_BOOT. |
| KeymapBuffer.LockedWriteSeenByKey | quantum/dynamic_keymap.c:144-151 | The same as the single-key accessor sees it. |
| KeymapBuffer.OtherCellsUntouched | quantum/dynamic_keymap.c:336-392 | A bulk write is seen by no accessor of the other regions. |
| Macros.PlayFrom | quantum/dynamic_keymap.c:502-560 | The decoding loop emits what the recursive decoder of the byte code says, and reads behind the area exactly when that does. |
| Macros.MacroSend | quantum/dynamic_keymap.c:471-561 | Number check, valid-flag check, skipping and playing together; nothing is sent if the number is too large or the last byte of the area is not zero. |
| Macros.BrokenTransferIsSilent | quantum/dynamic_keymap.h:72-84 | Once the last byte of the macro area is not zero, then after any writes to the buffer that leave that byte alone, no macro of any number is sent. |
| Macros.EncodableIff | quantum/dynamic_keymap.c:464-469 | The 0xFFxx escape reaches exactly the keycodes with a non-zero high byte, including those with a zero low byte, except 0xFF01 to 0xFFFF. |
| Macros.PlayInvertsSerialize | quantum/dynamic_keymap.c:502-560 | A serialized macro followed by a null plays as its action list, wherever it stands and whatever follows. |
| KeymapLaws.WritableIff | quantum/dynamic_keymap.c:502-560 | Which actions the byte code can spell: characters other than 0 and 1, keys under 1 to 3, wide keycodes under 5 to 7, delays below 65025 ms. |
| KeymapLaws.SpelledPlays | quantum/dynamic_keymap.c:502-560 | Such actions, spelled byte by byte and ended by a null, play as themselves wherever they stand. |
| KeymapLaws.StrayBytesDoNothing | quantum/dynamic_keymap.c:502-560 | An unknown number behind the 1, or a key without a code, is passed over; a null there, or in a delay, ends the macro. |
| Macros.SendPlaysMacro | quantum/dynamic_keymap.c:471-561 | For any list of well-formed macros padded with any number of zeros: macro `id` is sent, padding sends nothing, and what happens for every other number. |
| Macros.StaysInAreaIff | quantum/dynamic_keymap.c:488-500 | Reading stays inside the area if and only if the number is not the number of nulls in it. |
| Macros.FullBufferRunsPastEnd | quantum/dynamic_keymap.h:81-90 | Against the header comment: with a full buffer holding fewer macros than the maximum, one number makes the decoder read behind the area. |
| DeferredExec.Executor.TokenCanBeUsed | quantum/deferred_exec.c:18-28 | True exactly when the token is valid and no entry holds it. |
| DeferredExec.Executor.AllocateToken | quantum/deferred_exec.c:30-40 | The first usable token behind the last one given out, with wrap-around past the invalid token; the loop ends after at most 256 probes. |
| DeferredExec.Executor.DeferExec | quantum/deferred_exec.c:46-73 | The whole table, the token and the calls after a request, granted or refused. |
| DeferredExec.Executor.ExtendDeferredExec | quantum/deferred_exec.c:75-93 | The whole table after an extension. |
| DeferredExec.Executor.CancelDeferredExec | quantum/deferred_exec.c:95-116 | The whole table after a cancellation. |
| DeferredExec.Executor.DeferredExecTask | quantum/deferred_exec.c:118-157 | The table and the calls made, in slot order, after a pass. |
| DeferredTokens.AllocateFailsIff | quantum/deferred_exec.c:30-40 | Allocation fails if and only if all 255 tokens are live, and otherwise returns one that is not. |
| DeferredTokens.TokensInTurn | quantum/deferred_exec.c:30-40 | A token given out is the first one behind the last one given out that no entry holds, counting round. |
| DeferredTokens.FreedTokenRests | quantum/deferred_exec.c:30-40 | The token given out last is not given out again, even when freed, as long as any other is free. |
| DeferredTokens.SmallTableHasToken | quantum/deferred_exec.c:30-40 | Pigeonhole: with at most 255 slots and one of them free, some token is unused. |
| DeferredTokens.DeferSucceedsIff | quantum/deferred_exec.c:46-73 | When a request is granted, for tables of any size. |
| DeferredTokens.SmallTableDeferSucceedsIff | quantum/deferred_exec.c:46-73 | Up to 255 slots a valid request is granted if and only if a slot is free. |
| DeferredTokens.DeferTouchesOneSlot | quantum/deferred_exec.c:46-73 | A granted request fills one free slot under a token nobody else holds. |
| DeferredTokens.CancelTouchesOneSlot | quantum/deferred_exec.c:95-116 | A live token frees the one slot it names; a dead one changes nothing. |
| DeferredTokens.ExtendTouchesOneSlot | quantum/deferred_exec.c:75-93 | A live token re-arms the one slot it names; a dead one changes nothing. |
| DeferredTokens.TokensStayDistinct | quantum/deferred_exec.c:18-157 | Across any requests, extensions, cancellations and passes, live tokens stay pairwise distinct. |
| DeferredTime.SignedTestIff | quantum/deferred_exec.c:131 | The signed 32-bit comparison agrees with real time if and only if the due time is within half a turn of the clock. |
| DeferredTime.TaskRefines | quantum/deferred_exec.c:118-157 | With passes less than 2^31 ms apart and nothing overdue by more than that, a pass on words is the pass on unbounded time. |
| DeferredTime.TaskRefinesIff | quantum/deferred_exec.c:118-157 | With every live timer less than a turn of the clock behind, an effective pass on words is the ideal pass if and only if none lags by more than half a turn. |
| DeferredTime.RunRefines | quantum/deferred_exec.c:46-157 | Over every such run the calls made and the table kept are those of the scheduler on unbounded time. |
| DeferredTime.PassFiresExactlyDue | quantum/deferred_exec.c:128-131 | An effective pass calls every due timer once, in slot order, and no other. |
| DeferredTime.RunsOnTime | quantum/deferred_exec.c:118-157 | On every run a timer has fired at the first effective pass at which it was due and not before; a repeating one's k-th trigger is its first plus the sum of the delays returned, however late passes were. |
| DeferredTime.GapBoundsLag | quantum/deferred_exec.c:121-122 | While effective passes are less than half a turn apart, a timer whose due time was not yet over when it was set is never overdue by more than half a turn. |
| DeferredTime.LaggingTimerIsSkipped | quantum/deferred_exec.c:131 | An entry overdue by more than half a turn is not called: the signed comparison takes it for one in the future. |
| DeferredTime.RepeatingTimerFallsBehind | quantum/deferred_exec.c:125-129 | A run with passes less than half a turn apart in which a repeating timer falls that far behind: the ideal scheduler has called it twice, the firmware once. |
| Uf2.EncodeSays | util/uf2conv.py:149-166 | What is packed into a 512-byte block is what its header fields and data unpack to. |
| Uf2.EncodedCarries | util/uf2conv.py:149-166 | The 512 bytes of a block by offset: the bytes of the three marks at 0, 4 and 508, flags at 8, address at 12, size at 16, number at 20, count at 24 and family at 28, the data from 32 on and the padding behind it. |
| Uf2.TakeOneBlock | util/uf2conv.py:61-86 | Start address, padding, refusals, family map and data of one block. |
| Uf2.ReadOneBlock | util/uf2conv.py:49-60 | Bad magic and oversized blocks are errors, not-for-flash blocks are skipped, the rest are taken. |
| Uf2.ConvertFromUf2 | util/uf2conv.py:37-109 | The block loop over any byte string: the output and start address, or the first error. |
| Uf2Image.MemoryOfBlock | util/uf2conv.py:70-86 | Blocks accepted as ascending do not overlap: each decides the bytes it covers. |
| Uf2Image.ImageIsMemory | util/uf2conv.py:70-86 | The output described below is, byte for byte, the zero-filled memory the blocks describe. |
| Uf2Image.ReadsAsImage | util/uf2conv.py:37-109 | Blocks of one family are accepted if and only if every gap is non-negative, whole words and at most 10 MiB, and then come out as the memory image from the first address. |
| Uf2Image.ConvertToUf2 | util/uf2conv.py:121-142 | The page loop fails when an address does not fit 32 bits; otherwise block i of the bytes it returns has the three marks, number i, the number of blocks, the address 256 * i behind the start, size 256, and that page of the content padded with zeros. |
| Uf2Image.ContentFile | util/uf2conv.py:121-142 | The same of the function that the loop is proved to compute. |
| Uf2Image.RoundTrip | util/uf2conv.py:121-142 | Converting any byte string whose addresses fit to UF2 and back gives it zero-padded to a multiple of 256, at its start address. |
| Uf2Families.ReadsFamilies | util/uf2conv.py:37-109 | Any file of blocks, of any families and with blocks not meant for flash in between: refused exactly if a gap between blocks of a run is negative, no whole number of words or over 10 MiB; else the data of the wanted blocks with the gaps of all as zeros; and which files give nothing. |
| Uf2Families.BadFile | util/uf2conv.py:49-60 | A block with a wrong mark at its start, or one meant for flash of more than 476 bytes, wherever it stands, makes the whole file be refused. |
| Uf2Families.ChosenFamilyIff | util/uf2conv.py:61-79 | With blocks of another family in front, the memory image of the chosen ones comes out if and only if the others have no gaps. |
| HexUf2.StoreInto | util/uf2conv.py:195-198 | A byte goes into the open page or opens a zeroed one; every earlier page is left as it was. |
| HexUf2.StoreData | util/uf2conv.py:193-200 | One data record, byte by byte, into pages that stay separate objects. |
| HexUf2.ConvertFromHexToUf2 | util/uf2conv.py:168-205 | From the lines of the text to the UF2 bytes, with record types 0, 1, 2 and 4 and every malformed line; block i of the bytes has the three marks, number i, the number of pages, and address and bytes of page i. |
| HexUf2.StoreRecord | util/uf2conv.py:190-200 | A data record whose bytes all can be stored extends the pages by exactly those bytes, from its address on. |
| HexUf2.PageFile | util/uf2conv.py:201-205 | The blocks of the UF2 file by offset: numbers, count, marks, and address and 256 bytes of each page. |
| HexUf2.EncodeAll | util/uf2conv.py:201-205 | The pages become numbered blocks in order, or fail on an address that does not fit. |
| HexText.TextStores | util/uf2conv.py:168-205 | Text of records written out in hexadecimal stores exactly the data of its type 0 records, each from 0x10000 times the word of the last type 4 record, or 16 times that of the last type 2 record, plus its own address; checksum and length are not looked at, and nothing behind a type 1 record counts. |
| HexText.BrokenTextIsRefused | util/uf2conv.py:174-181 | An empty line, a record of fewer than four bytes or one with something that is no number makes the text be refused, unless an end record comes first. |
| HexText.SignsAndBlanks | util/uf2conv.py:180 | What Python reads as two digits: blanks and signs beside a digit, and a negative address byte. |
| HexText.LineReadsBack | util/uf2conv.py:174-181 | Any record written out in hexadecimal is read back as the same record, with or without a carriage return. |
| HexImage.PagesInOrder | util/uf2conv.py:195-198 | For ascending data the pages are page-aligned, ascending and pairwise distinct. |
| HexImage.PagesHoldStores | util/uf2conv.py:195-200 | Each address holds the byte stored there last, and zero where nothing was stored. |
| HexImage.HexThroughUf2 | util/uf2conv.py:168-205 | HEX to UF2 to binary: the UF2 file is the blocks of ascending pages; it is read back if and only if no gap exceeds 10 MiB, and then as the zero-filled memory image the records describe, from the first page on. |
| HexImage.TextThroughUf2 | util/uf2conv.py:168-205 | The same of the text itself: records written out in hexadecimal with ascending data come back through UF2 if and only if no gap exceeds 10 MiB, and then as the memory the text describes. |
| Crc8.ComputeCrc8 | quantum/crc.c:59-74 | The two nested loops compute the register defined step by step. |
| Crc8.AbsorbIsDivision | quantum/crc.c:64-71 | Absorbing a byte is the remainder of long division by x^8 + x^5 + x^4 + 1. |
| Crc8.CrcIsDivision | quantum/crc.c:59-74 | The CRC starts from 0xFF and is that remainder, byte after byte. |
| Crc8.SingleByteErrorDetected | quantum/crc.c:59-74 | Changing any one byte of any message changes the CRC. |
| Crc8.CheckByteIff | quantum/crc.c:59-74 | A message followed by a check byte has CRC 0 if and only if the byte is the message's CRC. |
| Crc8.FeedInjective | quantum/crc.c:59-74 | Different registers stay different whatever message follows. |
| Crc8.WideSameCrc | quantum/crc.h:27-31 | With the wide register of a speed-optimised build the returned byte is the same. |
| Unlock.Vial.HandleCommand | quantum/vial.c:155-192 | Flags, counter and timer after each command. |
| Unlock.RunInProgress | quantum/vial.c:155-192 | While an unlock is in progress the counter is in 1..50 and equals 50 minus the number of polls in a row, up to now and since the latest start, that counted; the timer stands at the last of them. |
| Unlock.StreakIff | quantum/vial.c:162-181 | That number is the one maximal streak: the last so many polls counted, and the one before them did not. |
| Unlock.UnlocksIff | quantum/vial.c:169-176 | A locked keyboard is unlocked by the next command if and only if an unlock is in progress and it is a poll that completes a streak of 50. |
| Unlock.UnlockIsEarned | quantum/vial.c:162-181 | Becoming unlocked means the last 50 polls since the latest start saw every combo key held, each more than 100 ms after the one before. |
| Unlock.OnlyLockLocks | quantum/vial.c:188-192 | An unlocked keyboard is locked by the lock command alone, and that changes nothing else, so an unlock in progress goes on. |
| Unlock.UnlockTakesTime | quantum/vial.c:169-176 | So at least 5050 ms have passed since that start, in spite of the 16-bit timer. |
| Unlock.UnlockedWasEarned | quantum/vial.c:155-192 | A keyboard that is unlocked earned it at some poll and has not been locked since. |
| Unlock.GoodPollsUnlock | quantum/vial.c:155-181 | Conversely fifty good polls after a start unlock, from any state. |

## Left out

- Chordal hold, retro shift and retro tapping, the swap-hands hint of a record, and re-entry into `action_exec`: fixed
  off; they would multiply the cases of the tap-hold machine.
- Write-backs of `process_record` into the record it is given: they belong to options that are off.
- TappingEngine.Engine.ProcessTappingKey: records are passed in and handed back by value where the code passes the
  address of a ring slot or of a local; the one caller that passes a slot writes the record back, as `RetryTail` does.
- Combo and repeat-key keycodes inside records; the remaining options of the record structure.
- Matrix.Scanner.MatrixTask: `matrix_can_read` is true and key presses are processed (no split slave side); the ticks
  that are generated when nothing changes appear only as ticks anywhere in the input of the tap-hold machine.
- LayerCache.LayerSwitch.StoreOrGetAction: `disable_action_cache` is off.
- What LM, OSL, TT, one-shot and modifier keycodes and tapped layer-taps do when processed, and the other cases of
  `process_action`; of these only which ones are tap-hold keys is modelled.
- LayerActions.KeyMeaning: layers that do not fit the layer word are not covered; the code shifts past the word there.
- The EEPROM is an array of bytes; wear levelling and write caching of the driver are not modelled, nor are
  `dynamic_keymap_reset` and `dynamic_keymap_macro_reset`.
- KeymapBuffer.SetBuffer: what happens with an empty piece at an odd offset inside the keymap of a locked keyboard,
  where the code reads and may change memory outside the caller's buffer (`LooksInsideIff`).
- Macros.SendPlaysMacro: malformed macro bytes are decoded by the same function, but only that the area is left is
  told, not what is read there; waiting and the sending of characters are entries of the action list.
- DeferredTime.RunsOnTime: callbacks leave the table alone; one table owns the token counter that the code shares
  between tables.
- Vial commands other than start, poll and lock, the replies to the host, the firewall of Vial keycodes, the insecure
  build, and the check of the unlock combo against ghosting.
- Unlock.Vial.HandleCommand: the two readings of the timer within one poll are the same instant.
- The table-driven CRC-8: it uses a different polynomial.
- HexUf2.ConvertFromHexToUf2: splitting the text at newlines is done before; of what Python's `int` takes for a blank
  or a digit only the ASCII characters are modelled; Python's exceptions are error values, and an address below zero
  is one as soon as a byte is stored there.
- Uf2.ConvertFromUf2: the summary that is printed, with the lowest address of each family, the table of family names,
  drives, arguments, files and the C-array output.
- GPIO, I2C, SPI, UART, USB and Bluetooth drivers, host reports, lighting, haptics, audio and the display.
- Word-per-minute smoothing, mouse-key curves, operating-system detection and colour conversion: heuristics or small
  tables.
