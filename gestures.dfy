/**
 * The flat record published for a braille gesture: its scalar attributes, the
 * path of the script it is (or would be) bound to, and the optional fields
 * the gesture exposes.
 */
module Gestures {

  import opened Wrappers
  import opened Events
  import opened ScriptPaths
  import opened GestureMaps

  /** The gesture classes the decision hook recognises, and everything else. */
  datatype Kind = BrailleDisplayGesture | BrailleInputGesture | OtherGesture

  /**
   * A gesture as the decision hook sees it: its class, its instance
   * attributes, the script bound to it, its identifiers and the optional
   * attributes the hook probes for.
   */
  datatype Gesture = Gesture(
    kind: Kind,
    attrs: map<string, Value>,
    script: Option<Script>,
    identifiers: seq<string>,
    source: Option<Value>,
    model: Option<Value>,
    id: Option<Value>,
    dots: Option<Value>,
    space: Option<Value>,
    routingIndex: Option<Value>)
  {
    predicate Recognised() {
      kind != OtherGesture
    }
  }

  const ScriptPathKey: string := "scriptPath"
  const IdentifiersKey: string := "identifiers"

  /** The optional attributes copied independently, each when present and not yet in the payload. */
  const PlainOptionalKeys: set<string> := {"source", "model", "id", "dots", "space", "routingIndex"}

  /** The keys the optional-field step may add. */
  const OptionalKeys: set<string> := PlainOptionalKeys + {IdentifiersKey}

  /** The instance attributes whose values are scalars, copied verbatim. */
  function ScalarAttrs(attrs: map<string, Value>): (p: Payload)
    ensures forall k :: k in p <==> k in attrs && attrs[k].IsScalar()
    ensures forall k :: k in p ==> p[k] == attrs[k]
  {
    map k | k in attrs && attrs[k].IsScalar() :: attrs[k]
  }

  /** The path the gesture resolves to, from its bound script or from the maps. */
  function ResolvedPath(g: Gesture, user: GestureMap, locale: GestureMap, display: Option<GestureMap>): Option<seq<string>>
  {
    match g.script
    case Some(s) => Some(BoundScriptPath(s))
    case None =>
      match Search(MapsInOrder(user, locale, display), g.identifiers)
      case Some(d) => Some([d.moduleName, d.className, d.command])
      case None => None
  }

  /** The scalar attributes with the resolved path, if any, stored under `scriptPath`. */
  function WithPath(base: Payload, path: Option<seq<string>>): Payload
  {
    if path.Some? then base[ScriptPathKey := StrList(path.value)] else base
  }

  /**
   * The plain optional attribute of the gesture named `key`; `None` for any
   * other key.
   */
  function PlainOptional(g: Gesture, key: string): Option<Value>
  {
    if key == "source" then g.source
    else if key == "model" then g.model
    else if key == "id" then g.id
    else if key == "dots" then g.dots
    else if key == "space" then g.space
    else if key == "routingIndex" then g.routingIndex
    else None
  }

  /**
   * What the optional-field step offers for `key`, given the payload built so
   * far: the identifiers are offered only when the id is not taken instead,
   * that is when the gesture has no id or `id` is already in the payload.
   */
  function Offered(g: Gesture, base: Payload, key: string): Option<Value>
  {
    if key == IdentifiersKey then
      if g.id.Some? && "id" !in base then None else Some(StrList(g.identifiers))
    else PlainOptional(g, key)
  }

  /**
   * The optional-field step restricted to the optional keys in `keys`, key
   * by key: a key already in `base` keeps its value; any other key of
   * `keys` holds what the gesture offers for it; nothing else is added.
   */
  function CompletedOn(g: Gesture, base: Payload, keys: set<string>): Payload
  {
    map k | k in base.Keys + keys && (k in base || Offered(g, base, k).Some?) ::
      if k in base then base[k] else Offered(g, base, k).value
  }

  /** The whole optional-field step. */
  function Completed(g: Gesture, base: Payload): Payload
  {
    CompletedOn(g, base, OptionalKeys)
  }

  /** Taking one more key into account adds at most that key, with what the gesture offers for it. */
  lemma CompletedOnStep(g: Gesture, base: Payload, keys: set<string>, k: string)
    ensures CompletedOn(g, base, keys + {k}) ==
              if k !in base && k !in keys && Offered(g, base, k).Some?
              then CompletedOn(g, base, keys)[k := Offered(g, base, k).value]
              else CompletedOn(g, base, keys)
  {
  }

  /** `if hasattr(gesture, key) and key not in dict: dict[key] = value`. */
  function Probe(dict: Payload, key: string, value: Option<Value>): Payload
  {
    if value.Some? && key !in dict then dict[key := value.value] else dict
  }

  /** The id probe and, only when it does not fire, the identifiers probe. */
  function ProbeIdOrIdentifiers(dict: Payload, id: Option<Value>, identifiers: seq<string>): Payload
  {
    if id.Some? && "id" !in dict then dict["id" := id.value]
    else if IdentifiersKey !in dict then dict[IdentifiersKey := StrList(identifiers)]
    else dict
  }

  const LeadingOptionalKeys: set<string> := {"source", "model", "id", IdentifiersKey}

  /** The probes for `source`, `model` and then `id` or `identifiers`, in the source's order. */
  lemma LeadingProbes(g: Gesture, base: Payload)
    ensures ProbeIdOrIdentifiers(Probe(Probe(base, "source", g.source), "model", g.model), g.id, g.identifiers) ==
              CompletedOn(g, base, LeadingOptionalKeys)
  {
  }

  /** The probes for `dots`, `space` and `routingIndex` finish the optional-field step. */
  lemma TrailingProbes(g: Gesture, base: Payload, d3: Payload)
    requires d3 == CompletedOn(g, base, LeadingOptionalKeys)
    ensures Probe(Probe(Probe(d3, "dots", g.dots), "space", g.space), "routingIndex", g.routingIndex) ==
              Completed(g, base)
  {
  }

  /** A key of the completed payload, one at a time. */
  lemma CompletedAt(g: Gesture, base: Payload, k: string)
    ensures k in Completed(g, base) <==> k in base || (k in OptionalKeys && Offered(g, base, k).Some?)
    ensures k in base ==> Completed(g, base)[k] == base[k]
    ensures k !in base && k in OptionalKeys && Offered(g, base, k).Some? ==>
              Completed(g, base)[k] == Offered(g, base, k).value
  {
  }

  /** The payload published for a recognised gesture whose path resolved to `path`. */
  function ExpectedPayload(g: Gesture, path: Option<seq<string>>): Payload
  {
    Completed(g, WithPath(ScalarAttrs(g.attrs), path))
  }

  /** The only keys a payload can have. */
  lemma PayloadKeys(g: Gesture, path: Option<seq<string>>)
    ensures forall k :: k in ExpectedPayload(g, path) ==>
              k in g.attrs || k == ScriptPathKey || k in OptionalKeys
  {
  }

  /** Scalar attributes are copied verbatim; only a resolved path can replace one, under `scriptPath`. */
  lemma ScalarAttributesPrevail(g: Gesture, path: Option<seq<string>>, k: string)
    requires k in g.attrs && g.attrs[k].IsScalar()
    requires k != ScriptPathKey || path.None?
    ensures k in ExpectedPayload(g, path) && ExpectedPayload(g, path)[k] == g.attrs[k]
  {
  }

  /**
   * A resolved path is always stored under `scriptPath`, overwriting a scalar
   * attribute of that name; without one, `scriptPath` is present only as
   * such an attribute.
   */
  lemma ScriptPathField(g: Gesture, path: Option<seq<string>>)
    ensures path.Some? ==>
              ScriptPathKey in ExpectedPayload(g, path) &&
              ExpectedPayload(g, path)[ScriptPathKey] == StrList(path.value)
    ensures path.None? ==>
              (ScriptPathKey in ExpectedPayload(g, path) <==>
                 ScriptPathKey in g.attrs && g.attrs[ScriptPathKey].IsScalar())
  {
  }

  /**
   * Each of `source`, `model`, `id`, `dots`, `space` and `routingIndex` is
   * present when the gesture has it or the key was already set, and an
   * earlier value is never overwritten.
   */
  lemma PlainOptionalField(g: Gesture, path: Option<seq<string>>, k: string)
    requires k in PlainOptionalKeys
    ensures var base := WithPath(ScalarAttrs(g.attrs), path);
            (k in ExpectedPayload(g, path) <==> k in base || PlainOptional(g, k).Some?) &&
            (k in base ==> ExpectedPayload(g, path)[k] == base[k]) &&
            (k !in base && PlainOptional(g, k).Some? ==> ExpectedPayload(g, path)[k] == PlainOptional(g, k).value)
  {
  }

  /** A gesture with an id reports the id and not its identifiers, unless attributes already hold those keys. */
  lemma IdExcludesIdentifiers(g: Gesture, path: Option<seq<string>>)
    requires g.id.Some?
    requires "id" !in g.attrs && IdentifiersKey !in g.attrs
    ensures "id" in ExpectedPayload(g, path) && ExpectedPayload(g, path)["id"] == g.id.value
    ensures IdentifiersKey !in ExpectedPayload(g, path)
  {
  }

  /** A gesture without an id reports its identifiers. */
  lemma IdentifiersWithoutId(g: Gesture, path: Option<seq<string>>)
    requires g.id.None? && IdentifiersKey !in g.attrs
    ensures IdentifiersKey in ExpectedPayload(g, path)
    ensures ExpectedPayload(g, path)[IdentifiersKey] == StrList(g.identifiers)
  {
  }

  /**
   * When an `id` attribute was already copied, the id branch does not fire,
   * so the identifiers are reported beside that attribute.
   */
  lemma IdentifiersBesideCopiedId(g: Gesture, path: Option<seq<string>>)
    requires g.id.Some?
    requires "id" in g.attrs && g.attrs["id"].IsScalar()
    requires IdentifiersKey !in g.attrs
    ensures ExpectedPayload(g, path)["id"] == g.attrs["id"]
    ensures IdentifiersKey in ExpectedPayload(g, path)
    ensures ExpectedPayload(g, path)[IdentifiersKey] == StrList(g.identifiers)
  {
  }

  /** A bound `kb` command is reported under the global-commands location. */
  lemma KeyboardCommandPath(g: Gesture, user: GestureMap, locale: GestureMap, display: Option<GestureMap>)
    requires g.script.Some? && IsKeyboardCommand(g.script.value.name)
    ensures ResolvedPath(g, user, locale, display) ==
              Some(["globalCommands", "GlobalCommands", g.script.value.name])
  {
  }

  /**
   * A bound script the maps are never asked about; an unbound gesture gets a
   * path exactly when some map has a match, made of that match's class and script.
   */
  lemma UnboundGesturePath(g: Gesture, user: GestureMap, locale: GestureMap, display: Option<GestureMap>)
    requires g.script.None?
    ensures ResolvedPath(g, user, locale, display).None? <==>
              forall k :: 0 <= k < |MapsInOrder(user, locale, display)| ==>
                FirstMatch(MapsInOrder(user, locale, display)[k], g.identifiers).None?
    ensures ResolvedPath(g, user, locale, display).Some? ==>
              var d := Search(MapsInOrder(user, locale, display), g.identifiers).value;
              ResolvedPath(g, user, locale, display).value == [d.moduleName, d.className, d.command]
  {
    SearchFindsLastMatchingMap(MapsInOrder(user, locale, display), g.identifiers);
  }
}
