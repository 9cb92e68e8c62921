/** `Mango::Input`: the set of keys currently held down, updated by key events. */
module Input {

  /** `Mango::Key`; `None` stands for every key the engine does not know. */
  datatype Key = None | W | A | S | D | SPACE | ARROW_UP | ARROW_DOWN | ARROW_LEFT | ARROW_RIGHT | Q | E | R

  /** `Mango::KeyAction`. */
  datatype KeyAction = NoAction | Press | Release | Repeat

  /** `KeyCallback`: unknown keys and actions are ignored; a press inserts the
      key and a release erases it; a repeat changes nothing. */
  function KeyCallback(pressed: set<Key>, key: Key, action: KeyAction): (r: set<Key>)
    ensures key == None || action == NoAction || action == Repeat ==> r == pressed
    ensures key != None && action == Press ==> key in r
    ensures action == Release ==> key !in r || key == None
    ensures forall k :: k != key ==> (k in r <==> k in pressed)
  {
    if key == None || action == NoAction then pressed
    else if action == Press then pressed + {key}
    else if action == Release then pressed - {key}
    else pressed
  }

  /** `Key::None` never becomes a held key. */
  lemma NoneNeverPressed(pressed: set<Key>, key: Key, action: KeyAction)
    requires None !in pressed
    ensures None !in KeyCallback(pressed, key, action)
  {
  }

  /** Pressing a held key and releasing a free key are no-ops. */
  lemma RedundantEventsIgnored(pressed: set<Key>, key: Key)
    ensures key in pressed ==> KeyCallback(pressed, key, Press) == pressed
    ensures key !in pressed ==> KeyCallback(pressed, key, Release) == pressed
  {
  }

  /** The set after a sequence of events, applied in order. */
  function Replay(pressed: set<Key>, events: seq<(Key, KeyAction)>): (r: set<Key>)
    ensures None !in pressed ==> None !in r
    decreases |events|
  {
    if |events| == 0 then pressed
    else Replay(KeyCallback(pressed, events[0].0, events[0].1), events[1..])
  }

  /** Whether an event can change `key`'s membership, and how. */
  function Effect(key: Key, event: (Key, KeyAction)): KeyAction {
    if key != None && event.0 == key && (event.1 == Press || event.1 == Release) then event.1 else NoAction
  }

  /** The last press or release of `key` in `events`, found from the back;
      `NoAction` when there is none. */
  function LastEffect(key: Key, events: seq<(Key, KeyAction)>): (r: KeyAction)
    ensures r == NoAction || r == Press || r == Release
    decreases |events|
  {
    if |events| == 0 then NoAction
    else if Effect(key, events[|events| - 1]) != NoAction then events[|events| - 1].1
    else LastEffect(key, events[..|events| - 1])
  }

  lemma {:induction false} LastEffectFront(key: Key, events: seq<(Key, KeyAction)>)
    requires |events| > 0
    ensures LastEffect(key, events)
         == if LastEffect(key, events[1..]) != NoAction then LastEffect(key, events[1..]) else Effect(key, events[0])
    decreases |events|
  {
    if |events| > 1 {
      var init := events[..|events| - 1];
      LastEffectFront(key, init);
      assert init[1..] == events[1..][..|events[1..]| - 1];
    }
  }

  /** A known key is held after a run of events iff its last press or release
      was a press, or it had neither and was held before. */
  lemma {:induction false} ReplayFollowsLastEffect(pressed: set<Key>, events: seq<(Key, KeyAction)>, key: Key)
    requires key != None
    ensures key in Replay(pressed, events)
        <==> LastEffect(key, events) == Press || (LastEffect(key, events) == NoAction && key in pressed)
    decreases |events|
  {
    if |events| > 0 {
      ReplayFollowsLastEffect(KeyCallback(pressed, events[0].0, events[0].1), events[1..], key);
      LastEffectFront(key, events);
    }
  }
}
