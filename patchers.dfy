/**
 * The three patcher classes and the host state they act on. The host's
 * speech entry points, extension points and gesture maps are fields of one
 * `Host` object; everything observable (events handed to subscribers and
 * calls into host functions) is appended, in order, to its `trace`.
 */
module Patchers {

  import opened Wrappers
  import opened Events
  import opened ScriptPaths
  import opened GestureMaps
  import opened Gestures
  import opened SpeechPatch
  import opened ExtensionPoints

  class Host {
    /** `speech._manager.speak` and `speech.pauseSpeech`. */
    var speak: Callable
    var pauseSpeech: Callable
    /** `braille.displayChanged`, `braille.displaySizeChanged`, `inputCore.decide_executeGesture`. */
    var registrations: Registrations
    /** `inputCore.manager.userGestureMap`, `.localeGestureMap`, `braille.handler.display.gestureMap`. */
    var userGestureMap: GestureMap
    var localeGestureMap: GestureMap
    var displayGestureMap: Option<GestureMap>
    /** Every event published and every host function called, oldest first. */
    var trace: seq<Effect>

    constructor (speak: Callable, pauseSpeech: Callable,
                 user: GestureMap, locale: GestureMap, display: Option<GestureMap>)
      ensures this.speak == speak && this.pauseSpeech == pauseSpeech
      ensures registrations == Registrations({}, {}, {})
      ensures userGestureMap == user && localeGestureMap == locale && displayGestureMap == display
      ensures trace == []
    {
      this.speak := speak;
      this.pauseSpeech := pauseSpeech;
      registrations := Registrations({}, {}, {});
      userGestureMap := user;
      localeGestureMap := locale;
      displayGestureMap := display;
      trace := [];
    }
  }

  /** `callCallbacks(topic, **payload)`: the subscribers see one event. */
  method CallCallbacks(host: Host, topic: string, payload: Payload)
    modifies host`trace
    ensures host.trace == old(host.trace) + [Published(topic, payload)]
  {
    host.trace := host.trace + [Published(topic, payload)];
  }

  /** A call into a host function, whose own behaviour is not modelled. */
  method CallHost(host: Host, target: Callable, args: seq<Value>)
    modifies host`trace
    ensures host.trace == old(host.trace) + [Invoked(target, args)]
  {
    host.trace := host.trace + [Invoked(target, args)];
  }

  /** `handle_displayChanged`, shared by every patcher: one `set_display` event with the display alone. */
  method HandleDisplayChanged(host: Host, display: Value)
    modifies host`trace
    ensures host.trace == old(host.trace) + [Published(SetDisplayTopic, map["display" := display])]
  {
    CallCallbacks(host, SetDisplayTopic, map["display" := display]);
  }

  /** `handle_displaySizeChanged`, shared by every patcher: one `set_display` event with the size alone. */
  method HandleDisplaySizeChanged(host: Host, displaySize: Value)
    modifies host`trace
    ensures host.trace == old(host.trace) + [Published(SetDisplayTopic, map["displaySize" := displaySize])]
  {
    CallCallbacks(host, SetDisplayTopic, map["displaySize" := displaySize]);
  }

  /**
   * The optional-field step of the gesture decision: each optional
   * attribute the gesture has is added unless its key is already present,
   * and the identifiers only when the id was not added.
   */
  method AddOptionalFields(g: Gesture, base: Payload) returns (dict: Payload)
    ensures dict == Completed(g, base)
  {
    dict := base;
    dict := Probe(dict, "source", g.source);
    dict := Probe(dict, "model", g.model);
    if g.id.Some? && "id" !in dict {
      dict := dict["id" := g.id.value];
    } else if IdentifiersKey !in dict {
      dict := dict[IdentifiersKey := StrList(g.identifiers)];
    }
    LeadingProbes(g, base);
    dict := Probe(dict, "dots", g.dots);
    dict := Probe(dict, "space", g.space);
    dict := Probe(dict, "routingIndex", g.routingIndex);
    TrailingProbes(g, base, CompletedOn(g, base, LeadingOptionalKeys));
  }

  /** `NVDAPatcher`: registers and unregisters the two display handlers. */
  class NvdaPatcher {
    const host: Host

    constructor (host: Host)
      ensures this.host == host
    {
      this.host := host;
    }

    method Register()
      modifies host`registrations
      ensures host.registrations == RegisterSetDisplay(old(host.registrations), this)
    {
      host.registrations := RegisterSetDisplay(host.registrations, this);
    }

    method Unregister()
      modifies host`registrations
      ensures host.registrations == UnregisterSetDisplay(old(host.registrations), this)
    {
      host.registrations := UnregisterSetDisplay(host.registrations, this);
    }
  }

  /**
   * `NVDASlavePatcher`: wraps the host's speech entry points so that every
   * call is published before it reaches the original.
   */
  class NvdaSlavePatcher {
    const host: Host
    var origSpeak: Option<Callable>
    var origPauseSpeech: Option<Callable>

    ghost predicate Valid()
      reads this
    {
      origSpeak.None? == origPauseSpeech.None?
    }

    /** The host's speech entry points together with this patcher's slots. */
    function State(): (s: SpeechState)
      reads this, host
      ensures s.IsPatched() <==> origSpeak.Some?
    {
      SpeechState(host.speak, host.pauseSpeech, origSpeak, origPauseSpeech)
    }

    constructor (host: Host)
      ensures this.host == host && Valid()
      ensures origSpeak == None && origPauseSpeech == None
    {
      this.host := host;
      origSpeak := None;
      origPauseSpeech := None;
    }

    method PatchSpeech()
      requires Valid()
      modifies this, host`speak, host`pauseSpeech
      ensures Valid()
      ensures State() == Patch(old(State()), SpeakOf(this), PauseSpeechOf(this))
    {
      if origSpeak.Some? {
        return;
      }
      origSpeak := Some(host.speak);
      host.speak := SpeakOf(this);
      origPauseSpeech := Some(host.pauseSpeech);
      host.pauseSpeech := PauseSpeechOf(this);
    }

    method UnpatchSpeech()
      requires Valid()
      modifies this, host`speak, host`pauseSpeech
      ensures Valid()
      ensures State() == Unpatch(old(State()))
    {
      if origSpeak.None? {
        return;
      }
      host.speak := origSpeak.value;
      origSpeak := None;
      host.pauseSpeech := origPauseSpeech.value;
      origPauseSpeech := None;
    }

    method Register()
      requires Valid()
      modifies this, host`speak, host`pauseSpeech
      ensures Valid()
      ensures State() == Patch(old(State()), SpeakOf(this), PauseSpeechOf(this))
    {
      PatchSpeech();
    }

    method Unregister()
      requires Valid()
      modifies this, host`speak, host`pauseSpeech
      ensures Valid()
      ensures State() == Unpatch(old(State()))
    {
      UnpatchSpeech();
    }

    /**
     * The replacement for `speak`: one `speak` event with the sequence and
     * the priority, then the original called with the same two arguments.
     * With no original saved, the call fails after publishing and
     * `delegated` is false.
     */
    method Speak(speechSequence: Value, priority: Value) returns (delegated: bool)
      modifies host`trace
      ensures delegated <==> origSpeak.Some?
      ensures host.trace ==
                old(host.trace)
                + [Published(SpeakTopic, map["speechSequence" := speechSequence, "priority" := priority])]
                + (if delegated then [Invoked(origSpeak.value, [speechSequence, priority])] else [])
    {
      CallCallbacks(host, SpeakTopic, map["speechSequence" := speechSequence, "priority" := priority]);
      if origSpeak.None? {
        return false;
      }
      CallHost(host, origSpeak.value, [speechSequence, priority]);
      return true;
    }

    /** The replacement for `pauseSpeech`: one `pause_speech` event with the switch, then the original. */
    method PauseSpeech(switch: Value) returns (delegated: bool)
      modifies host`trace
      ensures delegated <==> origPauseSpeech.Some?
      ensures host.trace ==
                old(host.trace)
                + [Published(PauseSpeechTopic, map["switch" := switch])]
                + (if delegated then [Invoked(origPauseSpeech.value, [switch])] else [])
    {
      CallCallbacks(host, PauseSpeechTopic, map["switch" := switch]);
      if origPauseSpeech.None? {
        return false;
      }
      CallHost(host, origPauseSpeech.value, [switch]);
      return true;
    }
  }

  /**
   * `NVDAMasterPatcher`: the display handlers, plus an opt-in hook that
   * turns braille gestures into `braille_input` events.
   */
  class NvdaMasterPatcher {
    const host: Host

    constructor (host: Host)
      ensures this.host == host
    {
      this.host := host;
    }

    method RegisterBrailleInput()
      modifies host`registrations
      ensures host.registrations == ExtensionPoints.RegisterBrailleInput(old(host.registrations), this)
    {
      host.registrations := ExtensionPoints.RegisterBrailleInput(host.registrations, this);
    }

    method UnregisterBrailleInput()
      modifies host`registrations
      ensures host.registrations == ExtensionPoints.UnregisterBrailleInput(old(host.registrations), this)
    {
      host.registrations := ExtensionPoints.UnregisterBrailleInput(host.registrations, this);
    }

    /** The display handlers only; braille input stays unpatched by default. */
    method Register()
      modifies host`registrations
      ensures host.registrations == MasterRegister(old(host.registrations), this)
    {
      host.registrations := RegisterSetDisplay(host.registrations, this);
    }

    /** The display handlers and, to be sure, the gesture hook. */
    method Unregister()
      modifies host`registrations
      ensures host.registrations == MasterUnregister(old(host.registrations), this)
    {
      host.registrations := UnregisterSetDisplay(host.registrations, this);
      UnregisterBrailleInput();
    }

    /**
     * `handle_decide_executeGesture`: an unrecognised gesture passes through
     * with nothing published; a recognised one is published as one
     * `braille_input` event and suppressed, whether or not a path was found.
     */
    method HandleDecideExecuteGesture(g: Gesture) returns (proceed: bool)
      modifies host`trace
      ensures proceed <==> !g.Recognised()
      ensures host.trace ==
                old(host.trace)
                + if proceed then []
                  else [Published(BrailleInputTopic,
                          ExpectedPayload(g, ResolvedPath(g, host.userGestureMap, host.localeGestureMap, host.displayGestureMap)))]
    {
      if !g.Recognised() {
        return true;
      }
      var dict := ScalarAttrs(g.attrs);
      ghost var path := ResolvedPath(g, host.userGestureMap, host.localeGestureMap, host.displayGestureMap);
      if g.script.Some? {
        dict := dict[ScriptPathKey := StrList(BoundScriptPath(g.script.value))];
      } else {
        var maps := [host.userGestureMap, host.localeGestureMap];
        if host.displayGestureMap.Some? {
          maps := maps + [host.displayGestureMap.value];
        }
        assert maps == MapsInOrder(host.userGestureMap, host.localeGestureMap, host.displayGestureMap);
        var scriptData := LookupScript(maps, g.identifiers);
        if scriptData.Some? {
          var d := scriptData.value;
          dict := dict[ScriptPathKey := StrList([d.moduleName, d.className, d.command])];
        }
      }
      assert dict == WithPath(ScalarAttrs(g.attrs), path);
      dict := AddOptionalFields(g, dict);
      CallCallbacks(host, BrailleInputTopic, dict);
      return false;
    }
  }

  /**
   * The speech patch seen from a client: a fresh patcher patches (twice),
   * the host then holds the replacements and the slots the originals;
   * unpatching (twice) puts back exactly the original entry points.
   */
  method PatchLifecycle(host: Host) returns (p: NvdaSlavePatcher)
    modifies host`speak, host`pauseSpeech
    ensures host.speak == old(host.speak) && host.pauseSpeech == old(host.pauseSpeech)
    ensures p.origSpeak == None && p.origPauseSpeech == None
  {
    p := new NvdaSlavePatcher(host);
    p.PatchSpeech();
    p.PatchSpeech();
    assert host.speak == SpeakOf(p) && host.pauseSpeech == PauseSpeechOf(p);
    assert p.origSpeak == Some(old(host.speak)) && p.origPauseSpeech == Some(old(host.pauseSpeech));
    p.UnpatchSpeech();
    p.UnpatchSpeech();
  }
}
