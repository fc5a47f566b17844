/**
 * The keyboard-shortcut hook: on a key press, the first enabled shortcut
 * whose key matches case-insensitively and whose modifier flags match
 * exactly fires, and the event's default action is prevented. An absent
 * modifier flag of a shortcut means "not required", hence "must not be
 * held".
 */
module Keyboard {
  import opened Wrappers
  import opened Text
  import opened Seqs

  /** A shortcut definition; `enabled` is `None` when left undefined. */
  datatype Shortcut = Shortcut(key: string, ctrl: bool, meta: bool, alt: bool, shift: bool, enabled: Option<bool>)

  /** The parts of a `KeyboardEvent` the hook reads. */
  datatype KeyEvent = KeyEvent(key: string, ctrl: bool, meta: bool, alt: bool, shift: bool)

  /** A modifier matches when it is held exactly when the shortcut requires it. */
  predicate ModifierMatches(required: bool, held: bool)
  {
    if required then held else !held
  }

  /** Whether `s` fires for `ev`. */
  predicate Matches(s: Shortcut, ev: KeyEvent)
  {
    s.enabled != Some(false) &&
    Lower(ev.key) == Lower(s.key) &&
    ModifierMatches(s.ctrl, ev.ctrl) && ModifierMatches(s.meta, ev.meta) &&
    ModifierMatches(s.alt, ev.alt) && ModifierMatches(s.shift, ev.shift)
  }

  /** A modifier matches exactly when required and held agree. */
  lemma ModifierMatchesExactly(required: bool, held: bool)
    ensures ModifierMatches(required, held) <==> required == held
  {
  }

  /**
   * `handleKeyDown`: the index of the shortcut whose callback runs, if
   * any, and whether `preventDefault` was called.
   */
  method HandleKeyDown(shortcuts: seq<Shortcut>, ev: KeyEvent) returns (fired: Option<nat>, prevented: bool)
    ensures fired.Some? ==> fired.value < |shortcuts| && Matches(shortcuts[fired.value], ev)
    ensures fired.Some? ==> forall j :: 0 <= j < fired.value ==> !Matches(shortcuts[j], ev)
    ensures fired.None? <==> forall j :: 0 <= j < |shortcuts| ==> !Matches(shortcuts[j], ev)
    ensures prevented <==> fired.Some?
  {
    fired := None;
    prevented := false;
    var i := 0;
    while i < |shortcuts|
      invariant 0 <= i <= |shortcuts|
      invariant forall j :: 0 <= j < i ==> !Matches(shortcuts[j], ev)
    {
      var s := shortcuts[i];
      if s.enabled == Some(false) {
        i := i + 1;
        continue;
      }
      if Lower(ev.key) != Lower(s.key) {
        i := i + 1;
        continue;
      }
      var ctrlMatch := if s.ctrl then ev.ctrl else !ev.ctrl;
      var metaMatch := if s.meta then ev.meta else !ev.meta;
      var altMatch := if s.alt then ev.alt else !ev.alt;
      var shiftMatch := if s.shift then ev.shift else !ev.shift;
      if ctrlMatch && metaMatch && altMatch && shiftMatch {
        prevented := true;
        fired := Some(i);
        break;
      }
      i := i + 1;
    }
  }

  /** What `handleKeyDown` does, as the first matching position. */
  lemma FiredIsFirstMatch(shortcuts: seq<Shortcut>, ev: KeyEvent, fired: Option<nat>)
    requires fired.Some? ==> fired.value < |shortcuts| && Matches(shortcuts[fired.value], ev)
    requires fired.Some? ==> forall j :: 0 <= j < fired.value ==> !Matches(shortcuts[j], ev)
    requires fired.None? <==> forall j :: 0 <= j < |shortcuts| ==> !Matches(shortcuts[j], ev)
    ensures fired == IndexWhere(shortcuts, (s: Shortcut) => Matches(s, ev))
  {
    if fired.Some? {
      IndexWhereFirst(shortcuts, (s: Shortcut) => Matches(s, ev), fired.value);
    }
  }

  /** `useExtractionModalShortcuts(toggleModal, enabled)`: Cmd+L, then Ctrl+L. */
  function ExtractionShortcuts(enabled: bool): (r: seq<Shortcut>)
    ensures |r| == 2
  {
    [Shortcut("l", false, true, false, false, Some(enabled)),
     Shortcut("l", true, false, false, false, Some(enabled))]
  }

  /** A press of L (either case) with exactly the given Ctrl and Meta flags. */
  function PressL(upper: bool, ctrl: bool, meta: bool): KeyEvent
  {
    KeyEvent(if upper then "L" else "l", ctrl, meta, false, false)
  }

  /**
   * The extraction toggle fires on Meta+L through the first shortcut and on
   * Ctrl+L through the second, in either letter case, and on neither when
   * both modifiers are held or the shortcuts are disabled.
   */
  lemma ExtractionToggle(enabled: bool, upper: bool, ctrl: bool, meta: bool)
    ensures var sc := ExtractionShortcuts(enabled);
      IndexWhere(sc, (s: Shortcut) => Matches(s, PressL(upper, ctrl, meta))) ==
        if !enabled || ctrl == meta then None
        else if meta then Some(0)
        else Some(1)
  {
    var ev := PressL(upper, ctrl, meta);
    assert Lower("L") == "l" && Lower("l") == "l";
    assert Lower(ev.key) == "l";
  }

  /** Another modifier held alongside Cmd+L or Ctrl+L stops the toggle. */
  lemma ExtractionNeedsExactModifiers(enabled: bool, ev: KeyEvent)
    requires ev.alt || ev.shift
    ensures IndexWhere(ExtractionShortcuts(enabled), (s: Shortcut) => Matches(s, ev)).None?
  {
  }
}
