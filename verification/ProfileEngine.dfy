/** The engine's profile fold (eyenet/engine/engine.py), one actor's observations in sequence. */
module ProfileEngine {
  import opened Wrappers

  type ActorId = int

  datatype Block = Stylometric | Lexical | Temporal | Interaction | Network | Content

  // A slot's place: its summary block and its key there.
  type Place = (Block, string)

  // What .get("value") yields: a missing entry reads as null.
  datatype Value = Null | Json(text: string)

  datatype Slot = Slot(value: Value, details: string, count: nat)

  datatype Profile = Profile(actor: ActorId, version: nat, count: nat, role: Option<string>, confidence: real,
                             summaries: map<Place, Slot>)

  // A mapped observation: where it goes and what it says.
  datatype Observation = Observation(place: Place, value: Value, details: string)

  // pick_winner over the recipes: the role verdict for a profile, if any.
  type Recipes = (Profile, nat) -> Option<(string, real)>

  function ValueAt(summaries: map<Place, Slot>, k: Place): Value {
    if k in summaries then summaries[k].value else Null
  }

  // _build_next_profile
  function BuildNextProfile(prev: Option<Profile>, actor: ActorId, o: Observation): Profile {
    var summaries := if prev.None? then map[] else prev.value.summaries;
    var version := if prev.None? then 1 else prev.value.version + 1;
    var count := if prev.None? then 1 else prev.value.count + 1;
    Profile(actor, version, count,
            if prev.None? then None else prev.value.role,
            if prev.None? then 0.0 else prev.value.confidence,
            summaries[o.place := Slot(o.value, o.details, count)])
  }

  // _materially_differs
  predicate MateriallyDiffers(prev: Option<Profile>, next: Profile) {
    prev.None?
    || prev.value.role != next.role
    || exists k :: k in next.summaries && next.summaries[k].value != ValueAt(prev.value.summaries, k)
  }

  // The profile an observation proposes, with the recipes' verdict filled in.
  function Proposed(prev: Option<Profile>, actor: ActorId, o: Observation, pick: Recipes): Profile {
    var next := BuildNextProfile(prev, actor, o);
    var winner := pick(next, next.count);
    if winner.None? then next else next.(role := Some(winner.value.0), confidence := winner.value.1)
  }

  // One call of _update_profile; an observation that maps to no slot changes nothing.
  function Step(prev: Option<Profile>, actor: ActorId, mapped: Option<Observation>, pick: Recipes): Option<Profile> {
    if mapped.None? then prev
    else
      var next := Proposed(prev, actor, mapped.value, pick);
      if MateriallyDiffers(prev, next) then Some(next) else prev
  }

  function Lookup(stored: map<ActorId, Profile>, actor: ActorId): Option<Profile> {
    if actor in stored then Some(stored[actor]) else None
  }

  class Engine {
    // The current profile of every actor that has one.
    var stored: map<ActorId, Profile>

    constructor ()
      ensures stored == map[]
    {
      stored := map[];
    }

    // _update_profile
    method UpdateProfile(actor: ActorId, mapped: Option<Observation>, pick: Recipes)
      modifies this
      ensures Lookup(stored, actor) == Step(Lookup(old(stored), actor), actor, mapped, pick)
      ensures forall other :: other != actor ==> Lookup(stored, other) == Lookup(old(stored), other)
    {
      if mapped.None? {
        return;
      }
      var prev := Lookup(stored, actor);
      var next := BuildNextProfile(prev, actor, mapped.value);
      var winner := pick(next, next.count);
      if winner.Some? {
        next := next.(role := Some(winner.value.0), confidence := winner.value.1);
      }
      if MateriallyDiffers(prev, next) {
        stored := stored[actor := next];
      }
    }
  }

  // ----- Runs -----

  function Run(actor: ActorId, seen: seq<Option<Observation>>, pick: Recipes): Option<Profile> {
    if seen == [] then None
    else Step(Run(actor, seen[..|seen| - 1], pick), actor, seen[|seen| - 1], pick)
  }

  // The value most recently observed for a place; null if it never was.
  function LastObserved(seen: seq<Option<Observation>>, k: Place): Value {
    if seen == [] then Null
    else
      var o := seen[|seen| - 1];
      if o.Some? && o.value.place == k then o.value.value else LastObserved(seen[..|seen| - 1], k)
  }

  function StoredValue(p: Option<Profile>, k: Place): Value {
    if p.None? then Null else ValueAt(p.value.summaries, k)
  }

  // An update is skipped exactly when nothing a reader of the profile can see would change.
  lemma StoredExactlyWhen(prev: Option<Profile>, actor: ActorId, o: Observation, pick: Recipes)
    ensures var next := Proposed(prev, actor, o, pick);
            MateriallyDiffers(prev, next) <==>
            prev.None? || prev.value.role != next.role || o.value != StoredValue(prev, o.place)
  {
    var next := Proposed(prev, actor, o, pick);
    assert o.place in next.summaries && next.summaries[o.place].value == o.value;
  }

  /** Storing or skipping, a reader sees the proposed profile: its role and every slot's value. The
      confidence is the older one exactly when the update was skipped. */
  lemma ProposalVisible(prev: Option<Profile>, actor: ActorId, o: Observation, pick: Recipes)
    ensures var s, next := Step(prev, actor, Some(o), pick), Proposed(prev, actor, o, pick);
            && s.Some? && s.value.role == next.role
            && (forall k :: StoredValue(s, k) == ValueAt(next.summaries, k))
            && s.value.confidence == (if MateriallyDiffers(prev, next) then next else prev.value).confidence
  {
    StoredExactlyWhen(prev, actor, o, pick);
  }

  /** The recipes' verdict on the proposed profile decides the role, of a first profile too; a stored
      update carries the verdict's confidence, a silent verdict leaves the one before. */
  lemma VerdictDecides(prev: Option<Profile>, actor: ActorId, o: Observation, pick: Recipes)
    ensures var shown := BuildNextProfile(prev, actor, o);
            var verdict, s := pick(shown, shown.count), Step(prev, actor, Some(o), pick);
            && s.Some?
            && s.value.role == (if verdict.Some? then Some(verdict.value.0) else if prev.Some? then prev.value.role else None)
            && (s != prev ==>
                  s.value.confidence == if verdict.Some? then verdict.value.1 else if prev.Some? then prev.value.confidence else 0.0)
            && (s == prev ==> s.value.confidence == prev.value.confidence)
  {
    StoredExactlyWhen(prev, actor, o, pick);
  }

  /** What a stored update writes: the observed value and details with the profile's new count in their
      slot, every other slot as it was, and the next version. */
  lemma SlotWritten(prev: Option<Profile>, actor: ActorId, o: Observation, pick: Recipes)
    ensures var s := Step(prev, actor, Some(o), pick);
            var before := if prev.Some? then prev.value.summaries else map[];
            s != prev ==>
              && s.value.actor == actor && s.value.version == (if prev.Some? then prev.value.version + 1 else 1)
              && s.value.count == (if prev.Some? then prev.value.count + 1 else 1)
              && o.place in s.value.summaries && s.value.summaries[o.place] == Slot(o.value, o.details, s.value.count)
              && forall k :: k != o.place ==>
                   (k in s.value.summaries <==> k in before) && (k in before ==> s.value.summaries[k] == before[k])
  {
  }

  lemma StepValue(prev: Option<Profile>, actor: ActorId, mapped: Option<Observation>, pick: Recipes, k: Place)
    ensures StoredValue(Step(prev, actor, mapped, pick), k)
            == if mapped.Some? && mapped.value.place == k then mapped.value.value else StoredValue(prev, k)
  {
    if mapped.Some? { StoredExactlyWhen(prev, actor, mapped.value, pick); }
  }

  /** Although non-material updates are never stored, the stored profile always shows the last value
      observed for every slot. */
  lemma {:induction false} StoredIsLastObserved(actor: ActorId, seen: seq<Option<Observation>>, pick: Recipes, k: Place)
    ensures StoredValue(Run(actor, seen, pick), k) == LastObserved(seen, k)
  {
    if seen != [] {
      var n := |seen| - 1;
      StoredIsLastObserved(actor, seen[..n], pick, k);
      StepValue(Run(actor, seen[..n], pick), actor, seen[n], pick, k);
    }
  }

  /** A slot once stored stays. */
  lemma {:induction false} SlotsStay(actor: ActorId, seen: seq<Option<Observation>>, pick: Recipes, n: nat, k: Place)
    requires n <= |seen|
    requires var early := Run(actor, seen[..n], pick); early.Some? && k in early.value.summaries
    ensures var late := Run(actor, seen, pick); late.Some? && k in late.value.summaries
    decreases |seen| - n
  {
    if n == |seen| {
      assert seen[..n] == seen;
    } else {
      assert seen[..n + 1][..n] == seen[..n];
      SlotsStay(actor, seen, pick, n + 1, k);
    }
  }

  // How many of the observations were stored.
  function Stores(actor: ActorId, seen: seq<Option<Observation>>, pick: Recipes): nat {
    if seen == [] then 0
    else
      var before := Run(actor, seen[..|seen| - 1], pick);
      var o := seen[|seen| - 1];
      Stores(actor, seen[..|seen| - 1], pick)
      + if o.Some? && MateriallyDiffers(before, Proposed(before, actor, o.value, pick)) then 1 else 0
  }

  /** version and derived_from_observation_count are the same number: the count of stored updates,
      not of observations. */
  lemma {:induction false} VersionCountsStores(actor: ActorId, seen: seq<Option<Observation>>, pick: Recipes)
    ensures var p := Run(actor, seen, pick);
            if p.None? then Stores(actor, seen, pick) == 0
            else p.value.version == p.value.count == Stores(actor, seen, pick) && p.value.actor == actor
  {
    if seen != [] { VersionCountsStores(actor, seen[..|seen| - 1], pick); }
  }

  // The slot written last carries the profile's count; no slot carries more.
  lemma {:induction false} SlotCountsBounded(actor: ActorId, seen: seq<Option<Observation>>, pick: Recipes, k: Place)
    ensures var p := Run(actor, seen, pick);
            p.Some? && k in p.value.summaries ==> 1 <= p.value.summaries[k].count <= p.value.count
  {
    if seen != [] { SlotCountsBounded(actor, seen[..|seen| - 1], pick, k); }
  }

  // How many observations mapped to a slot.
  function Mapped(seen: seq<Option<Observation>>): nat {
    if seen == [] then 0 else Mapped(seen[..|seen| - 1]) + if seen[|seen| - 1].Some? then 1 else 0
  }

  // Observation i is mapped and its update is not stored.
  predicate Skipped(actor: ActorId, seen: seq<Option<Observation>>, pick: Recipes, i: nat)
    requires i < |seen|
  {
    var before := Run(actor, seen[..i], pick);
    seen[i].Some? && !MateriallyDiffers(before, Proposed(before, actor, seen[i].value, pick))
  }

  // The recipes' verdict at observation i is silent or names the role the profile already has.
  predicate RoleKept(actor: ActorId, seen: seq<Option<Observation>>, pick: Recipes, i: nat)
    requires i < |seen| && seen[i].Some?
  {
    var before := Run(actor, seen[..i], pick);
    var next := BuildNextProfile(before, actor, seen[i].value);
    var winner := pick(next, next.count);
    winner.None? || (before.Some? && before.value.role == Some(winner.value.0))
  }

  // Observation i repeats: not the first to map to a slot, it says what was last said of its slot.
  predicate Repeats(actor: ActorId, seen: seq<Option<Observation>>, pick: Recipes, i: nat)
    requires i < |seen|
  {
    && seen[i].Some? && Mapped(seen[..i]) > 0
    && seen[i].value.value == LastObserved(seen[..i], seen[i].value.place)
    && RoleKept(actor, seen, pick, i)
  }

  // A profile exists from the first mapped observation on.
  lemma {:induction false} RunSome(actor: ActorId, seen: seq<Option<Observation>>, pick: Recipes)
    ensures Run(actor, seen, pick).Some? <==> Mapped(seen) > 0
  {
    if seen != [] { RunSome(actor, seen[..|seen| - 1], pick); }
  }

  lemma RoleOfProposed(prev: Profile, actor: ActorId, o: Observation, pick: Recipes)
    ensures var next := BuildNextProfile(Some(prev), actor, o);
            var winner := pick(next, next.count);
            prev.role == Proposed(Some(prev), actor, o, pick).role
            <==> winner.None? || prev.role == Some(winner.value.0)
  {
  }

  // An update is skipped exactly when the observation repeats and leaves the role as it is.
  lemma SkippedExactlyWhen(actor: ActorId, seen: seq<Option<Observation>>, pick: Recipes, i: nat)
    requires i < |seen|
    ensures Skipped(actor, seen, pick, i) <==> Repeats(actor, seen, pick, i)
  {
    if seen[i].Some? {
      var before, o := Run(actor, seen[..i], pick), seen[i].value;
      RunSome(actor, seen[..i], pick);
      StoredExactlyWhen(before, actor, o, pick);
      StoredIsLastObserved(actor, seen[..i], pick, o.place);
      if before.Some? { RoleOfProposed(before.value, actor, o, pick); }
    }
  }

  lemma {:induction false} StoresAndSkips(actor: ActorId, seen: seq<Option<Observation>>, pick: Recipes)
    ensures Stores(actor, seen, pick) <= Mapped(seen)
    ensures Stores(actor, seen, pick) < Mapped(seen) <==>
            exists i :: 0 <= i < |seen| && Skipped(actor, seen, pick, i)
  {
    if seen != [] {
      var n := |seen| - 1;
      StoresAndSkips(actor, seen[..n], pick);
      forall i | 0 <= i < n ensures Skipped(actor, seen[..n], pick, i) == Skipped(actor, seen, pick, i) {
        assert seen[..n][..i] == seen[..i];
      }
      if Stores(actor, seen[..n], pick) < Mapped(seen[..n]) {
        var i :| 0 <= i < n && Skipped(actor, seen[..n], pick, i);
        assert Skipped(actor, seen, pick, i);
      } else if Stores(actor, seen, pick) < Mapped(seen) {
        assert Skipped(actor, seen, pick, n);
      }
    }
  }

  /** The stored count falls short of the observations exactly when one of them repeats the last value
      seen for its slot while the recipes leave the role alone. */
  lemma CountFallsShort(actor: ActorId, seen: seq<Option<Observation>>, pick: Recipes)
    ensures var p := Run(actor, seen, pick);
            var count := if p.None? then 0 else p.value.count;
            count <= Mapped(seen) && (count < Mapped(seen) <==> exists i :: 0 <= i < |seen| && Repeats(actor, seen, pick, i))
  {
    VersionCountsStores(actor, seen, pick);
    StoresAndSkips(actor, seen, pick);
    forall i | 0 <= i < |seen| ensures Skipped(actor, seen, pick, i) == Repeats(actor, seen, pick, i) {
      SkippedExactlyWhen(actor, seen, pick, i);
    }
  }
}
