/**
 The `HashMap<K, AlertState>` that both managers own: every key has a state
 object of its own, created on first use and updated in place.
 */
module StateTable {
  import opened Prelude
  import opened AlertFsm

  /** The slot of a key; an untracked key counts as a fresh slot. */
  function SlotOf<K>(slots: map<K, Slot>, key: K): Slot {
    if key in slots then slots[key] else FRESH
  }

  class Table<K(==)> {
    var states: map<K, AlertState>

    ghost function Repr(): set<object>
      reads this
    {
      {this} + states.Values
    }

    ghost predicate Valid()
      reads this
    {
      forall j, k :: j in states && k in states && j != k ==> states[j] != states[k]
    }

    ghost function View(): map<K, Slot>
      reads Repr()
    {
      map k | k in states :: states[k].View()
    }

    constructor ()
      ensures Valid() && fresh(Repr()) && View() == map[]
    {
      states := map[];
    }

    /** `entry(key).or_insert_with(AlertState::new)`, then `advance`. */
    method Advance(key: K, active: bool, now: Instant, p: Params)
      returns (event: Option<Lifecycle>, firing: bool)
      requires Valid()
      modifies Repr()
      ensures Valid() && fresh(Repr() - old(Repr()))
      ensures var r := Step(SlotOf(old(View()), key), active, now, p);
              View() == old(View())[key := r.slot] && event == r.event && firing == (r.slot.phase == Firing)
    {
      if key !in states {
        var state := new AlertState();
        states := states[key := state];
      }
      var state := states[key];
      event := state.Advance(active, now, p);
      firing := state.phase == Firing;
    }

    /** `retain`: keeps the entries of the given keys and those that are still hot. */
    method Retain(keys: set<K>, now: Instant, cooldown: Duration)
      requires Valid()
      modifies this
      ensures Valid() && Repr() <= old(Repr())
      ensures View() == map k | k in old(View()) && (k in keys || Hot(old(View())[k], now, cooldown)) :: old(View())[k]
    {
      states := map k | k in states && (k in keys || states[k].IsHot(now, cooldown)) :: states[k];
    }
  }
}
