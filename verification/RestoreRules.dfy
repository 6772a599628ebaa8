/** What a restore may do to the settings that must not be replaced outright: the write-once ledger start,
    the evaluator mode and the reading stage. */
module RestoreRules {
  import opened Options
  import opened Texts

  /** A settings row: none, a missing value, or a text. */
  datatype Stored = Absent | NullValue | Present(s: string)

  function TextOf(v: Stored): string { match v case Present(s) => s case _ => "" }

  datatype Meta = Meta(start: Stored, auto: Stored, reader: Stored)

  /** Reads a text as an instant. */
  type Clock = string -> Option<int>

  // ---------- modes and stages ----------

  datatype Mode = Off | Dry | On
  datatype Stage = NoReading | Card | Full

  /** Anything that is not one of the modes reads as off. */
  function ModeOf(v: string): Mode {
    if Trim(v) == "1" then On else if Trim(v) == "dry" then Dry else Off
  }

  function ModeText(m: Mode): string { match m case On => "1" case Dry => "dry" case Off => "off" }

  function ModeRank(m: Mode): nat { match m case On => 2 case Dry => 1 case Off => 0 }

  function LowerMode(a: Mode, b: Mode): Mode { if ModeRank(a) <= ModeRank(b) then a else b }

  /** No row or a missing value is the default, card; a text that is no stage, the empty one included, is
      off. */
  function StageOf(v: Stored): Stage {
    match v
    case Absent => Card
    case NullValue => Card
    case Present(s) => if s == "full" then Full else if s == "card" then Card else NoReading
  }

  function StageText(t: Stage): string { match t case Full => "full" case Card => "card" case NoReading => "off" }

  function StageRank(t: Stage): nat { match t case Full => 2 case Card => 1 case NoReading => 0 }

  function LowerStage(a: Stage, b: Stage): Stage { if StageRank(a) <= StageRank(b) then a else b }

  lemma TextsRead(m: Mode, t: Stage)
    ensures ModeOf(ModeText(m)) == m
    ensures StageOf(Present(StageText(t))) == t
  {
    match m
    case On => assert Trim("1") == "1";
    case Dry => assert Trim("dry") == "dry";
    case Off => assert Trim("off") == "off";
  }

  // ---------- the ledger start ----------

  /** The same text, or two texts of one instant. */
  predicate SameStart(a: string, b: string, clock: Clock) {
    a == b || (clock(a).Some? && clock(a) == clock(b))
  }

  /** Both databases set the start, to different instants. */
  predicate Conflict(live: Meta, dump: Meta, clock: Clock) {
    TextOf(live.start) != "" && TextOf(dump.start) != "" && !SameStart(TextOf(live.start), TextOf(dump.start), clock)
  }

  // ---------- the rules as they run ----------

  class Database {
    var meta: Meta

    constructor (meta: Meta)
      ensures this.meta == meta
    {
      this.meta := meta;
    }

    /** Saving the start inserts a row only where there is none, readable or not. */
    method SaveStart(text: string) returns (ok: bool)
      modifies this
      ensures ok <==> old(meta).start.Absent?
      ensures meta == if ok then old(meta).(start := Present(text)) else old(meta)
    {
      if !meta.start.Absent? { return false; }
      meta := meta.(start := Present(text));
      ok := true;
    }

    /** The settings part of a forced restore: the dump's rows have replaced the live ones, and the rules
        run on the same transaction. */
    method Restore(dump: Meta, clock: Clock) returns (ok: bool)
      modifies this
      ensures ok <==> !Conflict(old(meta), dump, clock)
      ensures !ok <==>
        && old(meta).start.Present? && old(meta).start.s != "" && dump.start.Present? && dump.start.s != ""
        && old(meta).start.s != dump.start.s
        && (clock(old(meta).start.s).None? || clock(old(meta).start.s) != clock(dump.start.s))
      ensures !ok ==> meta == old(meta)
      ensures ok ==> Settled(old(meta), dump, meta)
      ensures ok ==> (
        var kept := old(meta).start.Present? && old(meta).start.s != "" && (dump.start.Present? ==> dump.start.s == "");
        meta.start == if kept then old(meta).start else dump.start)
    {
      var live := meta;
      meta := dump;
      ok := ApplyStart(live, clock);
      if !ok {
        meta := live;
        return;
      }
      ApplyEvaluator(TextOf(live.auto));
      ApplyStage(StageOf(live.reader));
    }

    method ApplyStart(live: Meta, clock: Clock) returns (ok: bool)
      modifies this
      ensures ok <==> !Conflict(live, old(meta), clock)
      ensures meta == if ok && TextOf(live.start) != "" && TextOf(old(meta).start) == ""
                      then old(meta).(start := Present(TextOf(live.start))) else old(meta)
    {
      var l, d := TextOf(live.start), TextOf(meta.start);
      if l == "" { return true; }
      if d == "" {
        meta := meta.(start := Present(l));
        return true;
      }
      ok := d == l || (clock(d).Some? && clock(l).Some? && clock(d) == clock(l));
    }

    method ApplyEvaluator(live: string)
      modifies this
      ensures ModeOf(TextOf(meta.auto)) == LowerMode(LowerMode(ModeOf(TextOf(old(meta).auto)), ModeOf(live)), Dry)
      ensures meta == old(meta).(auto := meta.auto)
      ensures var was := if old(meta).auto.Present? then Trim(old(meta).auto.s) else "";
        meta.auto ==
          if was == "1" || was == "dry" then
            if Trim(live) != "1" && Trim(live) != "dry" then Present("off")
            else if was == "1" then Present("dry") else old(meta).auto
          else old(meta).auto
    {
      var dump := ModeOf(TextOf(meta.auto));
      var final := LowerMode(dump, ModeOf(live));
      TextsRead(final, Card);
      TextsRead(Dry, Card);
      if final != dump { meta := meta.(auto := Present(ModeText(final))); }
      if final == On { meta := meta.(auto := Present(ModeText(Dry))); }
    }

    method ApplyStage(live: Stage)
      modifies this
      ensures StageOf(meta.reader) == LowerStage(StageOf(old(meta).reader), live)
      ensures meta == old(meta).(reader := meta.reader)
      ensures meta.reader ==
        if old(meta).reader == Present("full") && live == Card then Present("card")
        else if old(meta).reader in {Present("full"), Present("card"), NullValue, Absent} && live == NoReading
          then Present("off")
        else old(meta).reader
    {
      var dump := StageOf(meta.reader);
      var final := LowerStage(dump, live);
      TextsRead(Off, final);
      if final != dump { meta := meta.(reader := Present(StageText(final))); }
    }
  }

  /** What every accepted restore leaves: the start is the one either side had, the mode is the weakest of
      the dump's, the live one and dry, the stage the weaker of the dump's and the live one. */
  predicate Settled(live: Meta, dump: Meta, after: Meta) {
    && TextOf(after.start) == (if TextOf(dump.start) != "" then TextOf(dump.start) else TextOf(live.start))
    && ModeOf(TextOf(after.auto)) == LowerMode(LowerMode(ModeOf(TextOf(dump.auto)), ModeOf(TextOf(live.auto))), Dry)
    && StageOf(after.reader) == LowerStage(StageOf(dump.reader), StageOf(live.reader))
  }

  /** A restore never raises. Read as texts: the mode ends as "dry" when both sides are "1" or "dry" and as off
      otherwise, never as "1"; the stage ends full exactly when both sides are "full", and at least card exactly
      when each side is "full", "card" or says nothing. */
  lemma NeverRaises(live: Meta, dump: Meta, after: Meta)
    requires Settled(live, dump, after)
    ensures var l, d, a := Trim(TextOf(live.auto)), Trim(TextOf(dump.auto)), Trim(TextOf(after.auto));
      && a != "1"
      && (a == "dry" <==> (l == "1" || l == "dry") && (d == "1" || d == "dry"))
    ensures after.reader == Present("full") <==> live.reader == Present("full") && dump.reader == Present("full")
    ensures Reads(after.reader) <==> Reads(live.reader) && Reads(dump.reader)
  {
  }

  predicate Reads(v: Stored) { v.Present? ==> v.s == "full" || v.s == "card" }

  // ---------- over any history ----------

  datatype Event =
    | Save(text: string)
    | SetAuto(v: Stored)
    | SetReader(v: Stored)
    | RestoreFrom(dump: Meta)

  /** What an event may do to the settings. */
  predicate Happens(before: Meta, e: Event, after: Meta, clock: Clock) {
    match e
    case Save(text) => after == if before.start.Absent? then before.(start := Present(text)) else before
    case SetAuto(v) => after == before.(auto := v)
    case SetReader(v) => after == before.(reader := v)
    case RestoreFrom(dump) => if Conflict(before, dump, clock) then after == before else Settled(before, dump, after)
  }

  /** Over any history of settings changes and restores, a ledger start once set never moves to another
      instant and is never lost. */
  lemma {:induction false} StartNeverMoves(states: seq<Meta>, events: seq<Event>, clock: Clock, i: nat, j: nat)
    requires |states| == |events| + 1 && i <= j < |states|
    requires forall k :: 0 <= k < |events| ==> Happens(states[k], events[k], states[k + 1], clock)
    requires states[i].start.Present? && states[i].start.s != ""
    ensures states[j].start.Present? && states[j].start.s != ""
    ensures states[j].start.s == states[i].start.s
            || (clock(states[j].start.s).Some? && clock(states[j].start.s) == clock(states[i].start.s))
  {
    if i < j {
      StartNeverMoves(states, events, clock, i, j - 1);
      assert Happens(states[j - 1], events[j - 1], states[j - 1 + 1], clock);
    }
  }
}
