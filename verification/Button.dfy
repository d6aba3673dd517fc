/** The click recogniser: a button's raw level is debounced, and its stable presses and
    releases become single, double and long clicks. */
module Button {
  import opened Options

  const TWO_TO_32: nat := 0x1_0000_0000

  datatype Click = SingleClick | DoubleClick | LongClick

  /** One tick: the time it starts, the time the handlers read after that, the raw level. */
  datatype Tick = Tick(t: nat, now: nat, down: bool)

  datatype Settings = Settings(stableThreshold: nat, longThreshold: nat, doubleThreshold: nat,
                               longEnabled: bool, doubleEnabled: bool)

  /** An entry's fields that change. */
  datatype Entry = Entry(stableDown: bool, isStable: bool, rawDown: bool, rawChanged: nat,
                         longClicked: bool, downHandled: bool, waitDouble: bool, downTime: nat, upTime: nat)

  const Fresh := Entry(false, false, false, 0, false, false, false, 0, 0)

  /** The difference of two readings of a 32-bit clock. */
  function Elapsed(now: nat, since: nat): nat { (now - since) % TWO_TO_32 }

  /** An entry after a tick, and the click it may notify. */
  datatype Outcome = Outcome(entry: Entry, click: Option<Click>)

  function Debounced(s: Settings, e: Entry, k: Tick): Entry {
    if k.down != e.rawDown then e.(rawDown := k.down, isStable := false, rawChanged := k.t)
    else if !e.isStable && Elapsed(k.t, e.rawChanged) > s.stableThreshold then e.(isStable := true)
    else e
  }

  function Ticked(s: Settings, e: Entry, k: Tick): Outcome {
    var d := Debounced(s, e, k);
    if !d.isStable then Outcome(d, None)
    else if d.stableDown == k.down then Unchanged(s, d, k.now)
    else Changed(s, d.(stableDown := k.down), k.now)
  }

  function Changed(s: Settings, e: Entry, now: nat): Outcome {
    if e.stableDown then
      var double := e.waitDouble && s.doubleEnabled;
      Outcome(e.(downHandled := double, downTime := now, longClicked := false, waitDouble := false),
              if double then Some(DoubleClick) else None)
    else if e.downHandled then Outcome(e, None)
    else if s.doubleEnabled then Outcome(e.(upTime := now, waitDouble := true), None)
    else Outcome(e.(downHandled := true), Some(SingleClick))
  }

  function Unchanged(s: Settings, e: Entry, now: nat): Outcome {
    if e.stableDown then
      if s.longEnabled && !e.longClicked && !e.downHandled && Elapsed(now, e.downTime) > s.longThreshold
      then Outcome(e.(longClicked := true, downHandled := true), Some(LongClick))
      else Outcome(e, None)
    else
      var f := e.(longClicked := false);
      if e.waitDouble && s.doubleEnabled && Elapsed(now, e.upTime) > s.doubleThreshold
      then Outcome(f.(waitDouble := false, downHandled := true), Some(SingleClick))
      else Outcome(f, None)
  }

  // Runs

  function Run(s: Settings, e: Entry, ticks: seq<Tick>): Entry
    decreases |ticks|
  {
    if ticks == [] then e else Ticked(s, Run(s, e, ticks[..|ticks| - 1]), ticks[|ticks| - 1]).entry
  }

  /** How many clicks of a kind a run notifies. */
  function Clicks(s: Settings, e: Entry, ticks: seq<Tick>, c: Click): nat
    decreases |ticks|
  {
    if ticks == [] then 0
    else
      var init := ticks[..|ticks| - 1];
      Clicks(s, e, init, c) + if Ticked(s, Run(s, e, init), ticks[|ticks| - 1]).click == Some(c) then 1 else 0
  }

  /** How often the stable level goes down. */
  function Presses(s: Settings, e: Entry, ticks: seq<Tick>): nat
    decreases |ticks|
  {
    if ticks == [] then 0
    else
      var init := ticks[..|ticks| - 1];
      Presses(s, e, init) + if !Run(s, e, init).stableDown && Run(s, e, ticks).stableDown then 1 else 0
  }

  /** One press is still to be judged: it is held and not handled yet, or it was released
      and a second one is waited for. */
  function Undecided(e: Entry): nat {
    if (e.stableDown && !e.downHandled) || e.waitDouble then 1 else 0
  }

  predicate Consistent(s: Settings, e: Entry) {
    && (e.waitDouble ==> !e.stableDown && !e.downHandled && s.doubleEnabled)
    && (e.stableDown && e.longClicked ==> e.downHandled)
  }

  lemma TickConsistent(s: Settings, e: Entry, k: Tick)
    requires Consistent(s, e)
    ensures Consistent(s, Ticked(s, e, k).entry)
  {
  }

  function Weight(c: Option<Click>): nat {
    match c
    case None => 0
    case Some(DoubleClick) => 2
    case Some(_) => 1
  }

  lemma TickConserves(s: Settings, e: Entry, k: Tick)
    requires Consistent(s, e)
    ensures var o := Ticked(s, e, k);
      Undecided(e) + (if !e.stableDown && o.entry.stableDown then 1 else 0) == Weight(o.click) + Undecided(o.entry)
  {
    hide Elapsed;
  }

  /** Every press becomes part of exactly one click: over any run the presses are the single
      and long clicks, twice the double ones, and the one still undecided. */
  lemma {:induction false} PressesConserved(s: Settings, ticks: seq<Tick>)
    ensures Consistent(s, Run(s, Fresh, ticks))
    ensures Presses(s, Fresh, ticks) == Clicks(s, Fresh, ticks, SingleClick) + Clicks(s, Fresh, ticks, LongClick)
      + 2 * Clicks(s, Fresh, ticks, DoubleClick) + Undecided(Run(s, Fresh, ticks))
    decreases |ticks|
  {
    hide Ticked, Undecided, Consistent;
    if ticks != [] {
      var init, k := ticks[..|ticks| - 1], ticks[|ticks| - 1];
      PressesConserved(s, init);
      TickConsistent(s, Run(s, Fresh, init), k);
      TickConserves(s, Run(s, Fresh, init), k);
    } else {
      FreshIsIdle(s);
    }
  }

  lemma FreshIsIdle(s: Settings)
    ensures Consistent(s, Fresh) && Undecided(Fresh) == 0
  {
  }

  // Debouncing

  function Level(ticks: seq<Tick>): bool { ticks != [] && ticks[|ticks| - 1].down }

  /** The tick at which the raw level was last found changed. */
  function LastChange(ticks: seq<Tick>): (j: Option<nat>)
    ensures j.Some? ==> j.value < |ticks|
  {
    if ticks == [] then None
    else
      var init := ticks[..|ticks| - 1];
      if ticks[|ticks| - 1].down != Level(init) then Some(|ticks| - 1) else LastChange(init)
  }

  lemma {:induction false} LevelSinceChange(ticks: seq<Tick>)
    ensures var from := if LastChange(ticks).Some? then LastChange(ticks).value else 0;
      forall k :: from <= k < |ticks| ==> ticks[k].down == Level(ticks)
    ensures LastChange(ticks).None? ==> !Level(ticks)
    decreases |ticks|
  {
    if ticks != [] { LevelSinceChange(ticks[..|ticks| - 1]); }
  }

  /** What the debouncing part of an entry says of the ticks so far. */
  predicate Tracks(s: Settings, e: Entry, ticks: seq<Tick>) {
    && e.rawDown == Level(ticks)
    && (LastChange(ticks).Some? ==> e.rawChanged == ticks[LastChange(ticks).value].t)
    && (LastChange(ticks).None? ==> e.rawChanged == 0)
    && (e.isStable ==> e.stableDown == e.rawDown)
  }

  lemma {:induction false} RunTracks(s: Settings, ticks: seq<Tick>)
    ensures Tracks(s, Run(s, Fresh, ticks), ticks)
    decreases |ticks|
  {
    hide Elapsed;
    if ticks != [] { RunTracks(s, ticks[..|ticks| - 1]); }
  }

  /** The stable level flips at a tick exactly when the raw level differs from it and was
      found the same at every tick since it changed, for longer than the threshold. */
  lemma StableFlips(s: Settings, ticks: seq<Tick>)
    requires ticks != []
    ensures var before := Run(s, Fresh, ticks[..|ticks| - 1]); var after := Run(s, Fresh, ticks);
      && (after.stableDown != before.stableDown <==>
           Level(ticks) != before.stableDown && LastChange(ticks).Some? && LastChange(ticks).value < |ticks| - 1
           && Elapsed(ticks[|ticks| - 1].t, ticks[LastChange(ticks).value].t) > s.stableThreshold)
      && (after.stableDown != before.stableDown ==>
           forall k :: LastChange(ticks).value <= k < |ticks| ==> ticks[k].down == after.stableDown)
  {
    hide Elapsed;
    var init := ticks[..|ticks| - 1];
    RunTracks(s, init);
    RunTracks(s, ticks);
    LevelSinceChange(ticks);
    LevelSinceChange(init);
    StableDownTracks(s, init);
  }

  /** Before the first change nothing was ever stable and down. */
  lemma {:induction false} StableDownTracks(s: Settings, ticks: seq<Tick>)
    ensures LastChange(ticks).None? ==> !Run(s, Fresh, ticks).stableDown
    decreases |ticks|
  {
    hide Elapsed;
    if ticks != [] {
      var init := ticks[..|ticks| - 1];
      StableDownTracks(s, init);
      RunTracks(s, init);
      LevelSinceChange(ticks);
    }
  }

  // The object

  class ButtonEntry {
    const settings: Settings
    var stableDown: bool
    var isStable: bool
    var rawDown: bool
    var rawChanged: nat
    var longClicked: bool
    var downHandled: bool
    var waitDouble: bool
    var downTime: nat
    var upTime: nat
    /** The clicks passed to notifyEvent. */
    var notified: seq<Click>

    function View(): Entry reads this {
      Entry(stableDown, isStable, rawDown, rawChanged, longClicked, downHandled, waitDouble, downTime, upTime)
    }

    constructor (settings: Settings)
      ensures View() == Fresh && notified == [] && this.settings == settings
    {
      this.settings := settings;
      stableDown, isStable, rawDown, rawChanged := false, false, false, 0;
      longClicked, downHandled, waitDouble, downTime, upTime := false, false, false, 0, 0;
      notified := [];
    }

    /** What is notified after a click, or none. */
    static function With(log: seq<Click>, c: Option<Click>): seq<Click> { if c.Some? then log + [c.value] else log }

    /** tickEntry */
    method TickEntry(k: Tick)
      modifies this
      ensures View() == Ticked(settings, old(View()), k).entry
      ensures notified == With(old(notified), Ticked(settings, old(View()), k).click)
    {
      if k.down != rawDown {
        rawDown := k.down;
        isStable := false;
        rawChanged := k.t;
      } else if !isStable {
        if Elapsed(k.t, rawChanged) > settings.stableThreshold { isStable := true; }
      }
      if !isStable { return; }
      if stableDown == k.down {
        HandleUnchanged(k.now);
      } else {
        stableDown := k.down;
        HandleChanged(k.now);
      }
    }

    method HandleChanged(now: nat)
      modifies this
      ensures View() == Changed(settings, old(View()), now).entry
      ensures notified == With(old(notified), Changed(settings, old(View()), now).click)
    {
      if stableDown {
        if waitDouble && settings.doubleEnabled {
          downHandled := true;
          notified := notified + [DoubleClick];
        } else {
          downHandled := false;
        }
        downTime := now;
        longClicked := false;
        waitDouble := false;
      } else if !downHandled {
        if settings.doubleEnabled {
          upTime := now;
          waitDouble := true;
        } else {
          downHandled := true;
          notified := notified + [SingleClick];
        }
      }
    }

    method HandleUnchanged(now: nat)
      modifies this
      ensures View() == Unchanged(settings, old(View()), now).entry
      ensures notified == With(old(notified), Unchanged(settings, old(View()), now).click)
    {
      if stableDown {
        if settings.longEnabled && !longClicked && !downHandled && Elapsed(now, downTime) > settings.longThreshold {
          longClicked := true;
          downHandled := true;
          notified := notified + [LongClick];
        }
      } else {
        longClicked := false;
        if waitDouble && settings.doubleEnabled && Elapsed(now, upTime) > settings.doubleThreshold {
          waitDouble := false;
          downHandled := true;
          notified := notified + [SingleClick];
        }
      }
    }
  }
}
