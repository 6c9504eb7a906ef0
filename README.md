# NVDA Remote patchers, modelled in Dafny

This project models `addon/globalPlugins/remoteClient/nvda_patcher.py` of NVDA Remote, the part of the add-on that hooks into the NVDA screen reader:

- `NVDAPatcher` registers and unregisters two braille display handlers. Each handler republishes a display change as one `set_display` event.
- `NVDASlavePatcher` wraps NVDA's `speech._manager.speak` and `speech.pauseSpeech`. While patched, every call publishes a `speak` or `pause_speech` event and then reaches the saved original. Patching and unpatching are guarded by the `origSpeak` slot, with `None` meaning "not patched".
- `NVDAMasterPatcher` adds the display handlers and an opt-in `decide_executeGesture` hook. The hook turns a braille gesture into a flat payload and publishes it as a `braille_input` event. The payload holds the gesture's scalar attributes, a resolved `scriptPath` and the optional fields. The hook tells NVDA to skip the gesture.

Layout, one module per file:

- `wrappers.dfy`: `Option`.
- `events.dfy`: payload values, opaque host callables and the effects recorded on the trace.
- `script_paths.dfy`: the path of a bound script. This is the `"kb"` rule and Python's `rsplit(".", 1)`.
- `gesture_maps.dfy`: the search of the user, locale and display gesture maps. It has a specification function (`Search`) and the nested loops (`LookupScript`).
- `gestures.dfy`: the gesture datatype and the payload. The optional-field step is specified key by key (`Completed`), and the published payload is `ExpectedPayload`.
- `speech_patch.dfy`: the speech patch as a two-state machine on values.
- `extension_points.dfy`: the extension points as sets of registered handlers.
- `patchers.dfy`: the `Host` object and the three patcher classes as imperative code.

The host is one object, `Patchers.Host`. Its fields are the two speech entry points, the three extension points, the three gesture maps and a `trace`. `callCallbacks(topic, **kw)` appends `Published(topic, payload)` to the trace. A call into an original host function appends `Invoked(callable, args)`. So "publish, then delegate" is stated as the order of two trace entries.

Two behaviours of the code are easy to misread; the model follows the code as written:

- **The gesture-map search does not stop at the first map with a match.** The `break` at line 110 only leaves the identifier loop. So a later map's match replaces an earlier one, and the display map beats the locale map, which beats the user map (`GestureMaps.SearchPriority`, `GestureMaps.DisplayMapWins`). Within one map, the first identifier with a match wins.
- **`id` and `identifiers` are not strictly exclusive.** When `id` was already copied as a scalar attribute, the `id` branch does not fire. The `elif` then adds `identifiers` too (`Gestures.IdentifiersBesideCopiedId`).

## Model

| member | source | states |
|---|---|---|
| `ScriptPaths.LastIndexOf` | addon/globalPlugins/remoteClient/nvda_patcher.py:99 | the position `rsplit` splits at: `None` exactly when the text has no dot, otherwise a dot with no dot after it |
| `ScriptPaths.RSplitLastDot` | addon/globalPlugins/remoteClient/nvda_patcher.py:99 | `rsplit(".", 1)` gives one or two parts; one part exactly when there is no dot; the last part has no dot; joining the parts with dots gives back the location |
| `ScriptPaths.RSplitOfJoin` | addon/globalPlugins/remoteClient/nvda_patcher.py:99 | splitting `prefix + "." + last`, where `last` has no dot, gives exactly `[prefix, last]` |
| `ScriptPaths.BoundScriptPath` | addon/globalPlugins/remoteClient/nvda_patcher.py:94-100 | a bound script's path has 2 or 3 parts and ends with the script name; a `kb` name gives exactly `["globalCommands", "GlobalCommands", name]`; any other name gives the location split at its last dot |
| `GestureMaps.FirstMatchSkipsMisses` | addon/globalPlugins/remoteClient/nvda_patcher.py:107-112 | identifiers a map yields nothing for are skipped: the map's result is that of the identifiers after them |
| `GestureMaps.FirstMatchIsFirstHit` | addon/globalPlugins/remoteClient/nvda_patcher.py:107-112 | within one map, nothing is found exactly when no identifier matches; otherwise the result is the script of the first identifier that matches |
| `GestureMaps.MapsInOrder` | addon/globalPlugins/remoteClient/nvda_patcher.py:103-105 | the maps are searched in this order: user map, locale map, then the display's map only if it has one |
| `GestureMaps.SearchFindsLastMatchingMap` | addon/globalPlugins/remoteClient/nvda_patcher.py:102-112 | the search finds nothing exactly when no map has a match; otherwise it returns the match of a map after which no map has one |
| `GestureMaps.LookupScript` | addon/globalPlugins/remoteClient/nvda_patcher.py:102-112 | the nested `for map` / `for identifier` loops, with the `break` leaving only the inner loop, compute exactly the search result |
| `GestureMaps.LaterMapOverrides` | addon/globalPlugins/remoteClient/nvda_patcher.py:106-112 | a further map with a match replaces the earlier result; a further map without a match leaves it in place |
| `GestureMaps.SearchPriority` | addon/globalPlugins/remoteClient/nvda_patcher.py:102-112 | over the three maps, the result is the display map's match if there is one, else the locale map's, else the user map's |
| `GestureMaps.DisplayMapWins` | addon/globalPlugins/remoteClient/nvda_patcher.py:104-112 | a match in the display map beats any match in the locale or user map |
| `GestureMaps.UserMapDecidesWhenAlone` | addon/globalPlugins/remoteClient/nvda_patcher.py:103-112 | the user map's match is the result when the locale map and the display map (if any) have none |
| `GestureMaps.LocaleMatchOnSecondIdentifier` | addon/globalPlugins/remoteClient/nvda_patcher.py:103-112 | the case where only the locale map matches, and only on the second identifier: the result is exactly that binding |
| `Gestures.ScalarAttrs` | addon/globalPlugins/remoteClient/nvda_patcher.py:93 | the payload starts with exactly the instance attributes whose values are `int`, `str` or `bool`, with their values unchanged |
| `Gestures.CompletedOnStep` | addon/globalPlugins/remoteClient/nvda_patcher.py:115-128 | probing one more optional key adds at most that key, and only if it is free and the gesture offers a value |
| `Gestures.CompletedAt` | addon/globalPlugins/remoteClient/nvda_patcher.py:115-128 | after the optional-field step, a key is present exactly when it was already set or the gesture offers it; values already set are kept |
| `Gestures.LeadingProbes` | addon/globalPlugins/remoteClient/nvda_patcher.py:115-122 | the probes for `source`, `model`, then `id` or else `identifiers`, in the code's order, give the key-by-key step for those four keys |
| `Gestures.TrailingProbes` | addon/globalPlugins/remoteClient/nvda_patcher.py:123-128 | the probes for `dots`, `space` and `routingIndex` complete the key-by-key step |
| `Gestures.PayloadKeys` | addon/globalPlugins/remoteClient/nvda_patcher.py:93-128 | a payload key is an instance attribute, `scriptPath` or one of the seven optional keys; nothing else |
| `Gestures.ScalarAttributesPrevail` | addon/globalPlugins/remoteClient/nvda_patcher.py:93-128 | a scalar attribute reaches the payload unchanged, unless it is named `scriptPath` and a path was resolved; the optional-field step never overwrites it |
| `Gestures.ScriptPathField` | addon/globalPlugins/remoteClient/nvda_patcher.py:100-114 | a resolved path is stored under `scriptPath` and overwrites a scalar attribute of that name; without one, `scriptPath` is present only as such an attribute |
| `Gestures.PlainOptionalField` | addon/globalPlugins/remoteClient/nvda_patcher.py:115-128 | each of `source`, `model`, `id`, `dots`, `space`, `routingIndex` is present when already set or offered by the gesture; it keeps an earlier value and otherwise takes the gesture's |
| `Gestures.IdExcludesIdentifiers` | addon/globalPlugins/remoteClient/nvda_patcher.py:119-122 | a gesture with an `id`, whose attributes hold neither key, reports its `id` and not its `identifiers` |
| `Gestures.IdentifiersWithoutId` | addon/globalPlugins/remoteClient/nvda_patcher.py:119-122 | a gesture without an `id` reports its identifiers when that key is free |
| `Gestures.IdentifiersBesideCopiedId` | addon/globalPlugins/remoteClient/nvda_patcher.py:93-122 | when `id` was already copied as a scalar attribute, the `elif` adds the identifiers beside it |
| `Gestures.KeyboardCommandPath` | addon/globalPlugins/remoteClient/nvda_patcher.py:94-100 | a gesture bound to a `kb` command resolves to `["globalCommands", "GlobalCommands", name]`, whatever the script's location |
| `Gestures.UnboundGesturePath` | addon/globalPlugins/remoteClient/nvda_patcher.py:101-114 | an unbound gesture has no path exactly when no map matches; otherwise the path is `[module, class, command]` of the search result |
| `SpeechPatch.Patch` | addon/globalPlugins/remoteClient/nvda_patcher.py:43-49 | patching leaves the state patched; an already patched state is unchanged; otherwise both originals are saved and the host gets both replacements |
| `SpeechPatch.Unpatch` | addon/globalPlugins/remoteClient/nvda_patcher.py:51-57 | unpatching leaves both slots empty; an unpatched state is unchanged; otherwise the host gets back exactly the saved originals |
| `SpeechPatch.PatchIdempotent` | addon/globalPlugins/remoteClient/nvda_patcher.py:43-45 | a second patch changes neither the slots nor the host's entry points |
| `SpeechPatch.UnpatchIdempotent` | addon/globalPlugins/remoteClient/nvda_patcher.py:51-53 | a second unpatch changes nothing |
| `SpeechPatch.PatchThenUnpatchRestores` | addon/globalPlugins/remoteClient/nvda_patcher.py:38-57 | from empty slots, patching then unpatching restores the exact host entry points and empty slots |
| `SpeechPatch.RunStaysInTwoStates` | addon/globalPlugins/remoteClient/nvda_patcher.py:38-63 | from a fresh patcher, any sequence of register/unregister calls leaves either the untouched host or the host patched once; there is never a double wrap and never a lost original |
| `ExtensionPoints.MasterRegisterLeavesGestureHook` | addon/globalPlugins/remoteClient/nvda_patcher.py:15-24 | `register` installs both display handlers and leaves the gesture hook as it was |
| `ExtensionPoints.MasterUnregisterRemovesAll` | addon/globalPlugins/remoteClient/nvda_patcher.py:19-27 | `unregister` removes every handler of this patcher, including the gesture hook whether or not it was enabled, and leaves other handlers in place |
| `ExtensionPoints.MasterRoundTrip` | addon/globalPlugins/remoteClient/nvda_patcher.py:76-89 | `register`, optionally `registerBrailleInput`, then `unregister` restore the extension points exactly |
| `Patchers.HandleDisplayChanged` | addon/globalPlugins/remoteClient/nvda_patcher.py:29-30 | one `set_display` event whose only field is `display` |
| `Patchers.HandleDisplaySizeChanged` | addon/globalPlugins/remoteClient/nvda_patcher.py:32-33 | one `set_display` event whose only field is `displaySize` |
| `Patchers.NvdaPatcher.Register` | addon/globalPlugins/remoteClient/nvda_patcher.py:15-24 | both display handlers of this patcher are registered |
| `Patchers.NvdaPatcher.Unregister` | addon/globalPlugins/remoteClient/nvda_patcher.py:19-27 | both display handlers of this patcher are unregistered |
| `Patchers.NvdaSlavePatcher.constructor` | addon/globalPlugins/remoteClient/nvda_patcher.py:38-41 | a new patcher has both slots `None` |
| `Patchers.NvdaSlavePatcher.PatchSpeech` | addon/globalPlugins/remoteClient/nvda_patcher.py:43-49 | the host's entry points and the slots change as `Patch` says; nothing else changes |
| `Patchers.NvdaSlavePatcher.UnpatchSpeech` | addon/globalPlugins/remoteClient/nvda_patcher.py:51-57 | the host's entry points and the slots change as `Unpatch` says; nothing else changes |
| `Patchers.NvdaSlavePatcher.Register` | addon/globalPlugins/remoteClient/nvda_patcher.py:59-60 | `register` is `patchSpeech`; it registers no display handler |
| `Patchers.NvdaSlavePatcher.Unregister` | addon/globalPlugins/remoteClient/nvda_patcher.py:62-63 | `unregister` is `unpatchSpeech` |
| `Patchers.NvdaSlavePatcher.Speak` | addon/globalPlugins/remoteClient/nvda_patcher.py:65-67 | exactly one `speak` event carrying the sequence and the priority, then, and only then, the saved original is called with the same two arguments |
| `Patchers.NvdaSlavePatcher.PauseSpeech` | addon/globalPlugins/remoteClient/nvda_patcher.py:69-71 | exactly one `pause_speech` event carrying the switch, then the saved original is called with it |
| `Patchers.NvdaMasterPatcher.RegisterBrailleInput` | addon/globalPlugins/remoteClient/nvda_patcher.py:76-77 | the gesture hook of this patcher is registered |
| `Patchers.NvdaMasterPatcher.UnregisterBrailleInput` | addon/globalPlugins/remoteClient/nvda_patcher.py:79-80 | the gesture hook of this patcher is unregistered |
| `Patchers.NvdaMasterPatcher.Register` | addon/globalPlugins/remoteClient/nvda_patcher.py:82-84 | only the display handlers are registered |
| `Patchers.NvdaMasterPatcher.Unregister` | addon/globalPlugins/remoteClient/nvda_patcher.py:86-89 | the display handlers and the gesture hook are unregistered |
| `Patchers.AddOptionalFields` | addon/globalPlugins/remoteClient/nvda_patcher.py:115-128 | the six conditional insertions, in the code's order, give exactly the key-by-key optional-field step |
| `Patchers.NvdaMasterPatcher.HandleDecideExecuteGesture` | addon/globalPlugins/remoteClient/nvda_patcher.py:91-132 | an unrecognised gesture returns true and publishes nothing; a recognised one publishes exactly one `braille_input` event with the expected payload and returns false, whether or not a path was found |
| `Patchers.PatchLifecycle` | addon/globalPlugins/remoteClient/nvda_patcher.py:38-57 | a fresh patcher patched twice and unpatched twice leaves the host's exact original entry points and both slots `None` |

## Left out

- `callback_manager.CallbackManager` is not part of this model. Publishing is modelled as appending one event to the trace. Subscriber order, duplicate subscriptions and the isolation of a failing subscriber are not modelled.
- The host modules `speech`, `braille`, `brailleInput`, `inputCore` and `scriptHandler` are opaque:
  - entry points are `Callable` tokens;
  - `getScriptName` and `getScriptLocation` are the two fields of `Script`;
  - `getScriptsForGesture` is reduced to its first result, an `Option`.
- A call into an original entry point is recorded as one `Invoked` effect. What the original then does, including any error it raises, is not modelled.
- Calling a speech replacement after its slot was cleared makes Python raise `TypeError`, once the event has been published. The model records the event and returns `delegated == false`.
- Payloads are maps, so the insertion order of the Python `dict` is not modelled.
- Extension points are sets. So the order in which the two display handlers are registered and unregistered is not modelled. The same goes for what the host does with a duplicate registration or with removing an absent handler.
- Host entry points can never be `None` in the model. So the ambiguity of the `None` sentinel cannot arise: an original that is itself `None` would make the guard treat the patcher as unpatched.
- Python reflection is replaced by explicit data:
  - `isinstance` on the gesture class becomes the `Kind` tag;
  - `__dict__` becomes `attrs`;
  - `hasattr` becomes the `Option` fields;
  - the truthiness of `gesture.script`, `scriptData` and the display's gesture map becomes `Option`.
- A recognised gesture always has `identifiers` in the model, so the `hasattr(gesture, "identifiers")` test is always true.
- The script name a gesture map yields is always a string in the model.
- `ExtensionPoints.MasterUnregisterRemovesAll` requires each extension point to hold only handlers of its own kind. This always holds for registrations made by the patchers.
- Threading is not modelled. The rebinding of module globals is modelled as assignments to `Host` fields.
