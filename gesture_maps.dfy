/**
 * The search for the script an unbound gesture would run: each gesture map is
 * asked, identifier by identifier, for the first script bound to it.
 */
module GestureMaps {

  import opened Wrappers

  /** What a gesture map yields first for an identifier: the script's class (its module and name) and the script's name. */
  datatype ScriptData = ScriptData(moduleName: string, className: string, command: string)

  /** `map.getScriptsForGesture(identifier)` reduced to its first element, or `None` when it yields nothing. */
  type GestureMap = string -> Option<ScriptData>

  /** The first script one map yields for the identifiers, tried in order. */
  function FirstMatch(m: GestureMap, ids: seq<string>): Option<ScriptData>
  {
    if |ids| == 0 then None
    else if m(ids[0]).Some? then m(ids[0])
    else FirstMatch(m, ids[1..])
  }

  /** Identifiers the map yields nothing for are skipped over. */
  lemma {:induction false} FirstMatchSkipsMisses(m: GestureMap, ids: seq<string>, j: nat)
    requires j <= |ids|
    requires forall k :: 0 <= k < j ==> m(ids[k]).None?
    ensures FirstMatch(m, ids) == FirstMatch(m, ids[j..])
  {
    if j > 0 {
      assert ids[1..][j - 1..] == ids[j..];
      FirstMatchSkipsMisses(m, ids[1..], j - 1);
    }
  }

  /**
   * A map finds nothing exactly when it yields nothing for every identifier;
   * otherwise it finds what it yields for the first identifier it knows.
   */
  lemma FirstMatchIsFirstHit(m: GestureMap, ids: seq<string>)
    ensures FirstMatch(m, ids).None? <==> forall i :: 0 <= i < |ids| ==> m(ids[i]).None?
    ensures FirstMatch(m, ids).Some? ==>
              exists i :: 0 <= i < |ids| && m(ids[i]) == FirstMatch(m, ids) &&
                          forall j :: 0 <= j < i ==> m(ids[j]).None?
  {
  }

  /** The maps in the order the source searches them: user, locale, then the display's own if it has one. */
  function MapsInOrder(user: GestureMap, locale: GestureMap, display: Option<GestureMap>): (maps: seq<GestureMap>)
    ensures |maps| == (if display.Some? then 3 else 2)
    ensures maps[0] == user && maps[1] == locale
    ensures display.Some? ==> maps[2] == display.value
  {
    [user, locale] + (if display.Some? then [display.value] else [])
  }

  /**
   * The script found by searching every map in turn: a map with a match
   * replaces whatever an earlier map found, so the LAST map with a match
   * decides, through its first matching identifier.
   */
  function Search(maps: seq<GestureMap>, ids: seq<string>): Option<ScriptData>
    decreases |maps|
  {
    if |maps| == 0 then None
    else
      var here := FirstMatch(maps[|maps| - 1], ids);
      if here.Some? then here else Search(maps[..|maps| - 1], ids)
  }

  /**
   * The search finds nothing exactly when no map has a match; otherwise it
   * finds the match of some map after which no map has one.
   */
  lemma {:induction false} SearchFindsLastMatchingMap(maps: seq<GestureMap>, ids: seq<string>)
    ensures Search(maps, ids).None? <==> forall k :: 0 <= k < |maps| ==> FirstMatch(maps[k], ids).None?
    ensures Search(maps, ids).Some? ==>
              exists k :: 0 <= k < |maps| && FirstMatch(maps[k], ids) == Search(maps, ids) &&
                          forall j :: k < j < |maps| ==> FirstMatch(maps[j], ids).None?
    decreases |maps|
  {
    if |maps| > 0 {
      var n := |maps| - 1;
      var front := maps[..n];
      SearchFindsLastMatchingMap(front, ids);
      assert forall k :: 0 <= k < n ==> front[k] == maps[k];
      if FirstMatch(maps[n], ids).None? && Search(front, ids).Some? {
        var k :| 0 <= k < n && FirstMatch(front[k], ids) == Search(front, ids) &&
                 forall j :: k < j < n ==> FirstMatch(front[j], ids).None?;
        assert FirstMatch(maps[k], ids) == Search(maps, ids);
      }
    }
  }

  /**
   * The nested search loops of the gesture decision: the inner loop stops at
   * the first identifier a map yields a script for, the outer loop always
   * goes on to the next map.
   */
  method LookupScript(maps: seq<GestureMap>, ids: seq<string>) returns (scriptData: Option<ScriptData>)
    ensures scriptData == Search(maps, ids)
  {
    scriptData := None;
    var i := 0;
    while i < |maps|
      invariant 0 <= i <= |maps|
      invariant scriptData == Search(maps[..i], ids)
    {
      var m := maps[i];
      assert maps[..i + 1][..i] == maps[..i];
      var j := 0;
      while j < |ids|
        invariant 0 <= j <= |ids|
        invariant forall k :: 0 <= k < j ==> m(ids[k]).None?
        invariant scriptData == Search(maps[..i], ids)
      {
        var hit := m(ids[j]);
        if hit.Some? {
          FirstMatchSkipsMisses(m, ids, j);
          scriptData := hit;
          break;
        }
        j := j + 1;
      }
      FirstMatchSkipsMisses(m, ids, j);
      assert scriptData == Search(maps[..i + 1], ids);
      i := i + 1;
    }
    assert maps[..i] == maps;
  }

  /** A map with a match overrides everything searched before it; a map without one changes nothing. */
  lemma {:induction false} LaterMapOverrides(maps: seq<GestureMap>, m: GestureMap, ids: seq<string>)
    ensures FirstMatch(m, ids).Some? ==> Search(maps + [m], ids) == FirstMatch(m, ids)
    ensures FirstMatch(m, ids).None? ==> Search(maps + [m], ids) == Search(maps, ids)
  {
  }

  /**
   * The result of the search over the three maps, spelled out: the display's
   * match if it has a map and a match, else the locale map's match, else the
   * user map's. As written this reverses the priority the search order
   * suggests, because the search never stops after a map with a match.
   */
  lemma {:induction false} SearchPriority(user: GestureMap, locale: GestureMap, display: Option<GestureMap>, ids: seq<string>)
    ensures Search(MapsInOrder(user, locale, display), ids) ==
              if display.Some? && FirstMatch(display.value, ids).Some? then FirstMatch(display.value, ids)
              else if FirstMatch(locale, ids).Some? then FirstMatch(locale, ids)
              else FirstMatch(user, ids)
  {
    var maps := MapsInOrder(user, locale, display);
    assert [user] + [locale] == [user, locale];
    LaterMapOverrides([], user, ids);
    LaterMapOverrides([user], locale, ids);
    if display.Some? {
      assert maps == [user, locale] + [display.value];
      LaterMapOverrides([user, locale], display.value, ids);
    } else {
      assert maps == [user] + [locale];
    }
  }

  /** A match in the display's map beats any match in the locale or user map. */
  lemma DisplayMapWins(user: GestureMap, locale: GestureMap, display: GestureMap, ids: seq<string>)
    requires FirstMatch(display, ids).Some?
    ensures Search(MapsInOrder(user, locale, Some(display)), ids) == FirstMatch(display, ids)
  {
  }

  /** The user's own map decides only when neither later map has a match. */
  lemma UserMapDecidesWhenAlone(user: GestureMap, locale: GestureMap, display: Option<GestureMap>, ids: seq<string>)
    requires FirstMatch(locale, ids).None?
    requires display.Some? ==> FirstMatch(display.value, ids).None?
    ensures Search(MapsInOrder(user, locale, display), ids) == FirstMatch(user, ids)
  {
    SearchPriority(user, locale, display, ids);
  }

  /**
   * Identifier order within a map and map order are both respected: when only
   * the locale map knows the gesture, and only by its second identifier, that
   * binding is found.
   */
  lemma LocaleMatchOnSecondIdentifier(user: GestureMap, locale: GestureMap, display: Option<GestureMap>, ids: seq<string>)
    requires |ids| >= 2
    requires FirstMatch(user, ids).None?
    requires locale(ids[0]).None? && locale(ids[1]).Some?
    requires display.Some? ==> FirstMatch(display.value, ids).None?
    ensures Search(MapsInOrder(user, locale, display), ids) == locale(ids[1])
  {
    SearchPriority(user, locale, display, ids);
    FirstMatchSkipsMisses(locale, ids, 1);
  }
}
