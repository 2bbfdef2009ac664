/**
 * The ECS AI system (ai_system.go): during play, each AI unit waiting for a
 * choice takes the first usable head or arm part in a shuffled slot order,
 * picks a random opposing target for an attack, and starts charging.
 * The shuffle and the random target are parameters.
 */
module AiSystem {
  import opened Optional
  import opened Models
  import opened EcsWorld

  /** The units the AI query visits: AI-controlled and without the Broken tag. */
  predicate InAiQuery(u: Unit) {
    u.control == AiControlled && !u.tags.broken
  }

  /** A shuffle of the three attack slots. */
  predicate IsShuffle(order: seq<Slot>) {
    multiset(order) == multiset(ATTACK_SLOTS)
  }

  /** One unit's choice, given the world it sees, its slot order and its target pick. */
  function AiChoice(u: Unit, units: seq<Unit>, order: seq<Slot>, pick: nat): Unit {
    if !InAiQuery(u) || u.status.state != ReadyToSelectAction then u
    else
      var available := ChargedSlots(u.parts, order);
      if available == [] then u
      else
        var slot := available[0];
        var part := u.parts[slot];
        var candidates := Targets(units, AiOpponent(u.identity.team));
        if IsAttack(part.category) && candidates == [] then u
        else
          var target := if IsAttack(part.category) then candidates[pick % |candidates|]
                        else u.action.targetedMedarot;
          u.(action := u.action.(targetedMedarot := target, selectedPartKey := Some(slot)),
             status := WithTraitFlags(u.status.(state := ActionCharging, gauge := 0.0), part.actionTrait),
             tags := u.tags.(charging := true))
  }

  /** Whether some head or arm part is intact with a positive charge. */
  predicate HasUsablePart(parts: PartMap) {
    exists k :: k in ATTACK_SLOTS && GetPart(parts, k).Some? && parts[k].charge > 0
  }

  /**
   * The AI acts only on a waiting AI unit that has a usable part and, for an
   * attack, an opposing target; it then charges the chosen slot from 0,
   * which is an intact head or arm with a positive charge, aims an attack at
   * a targetable opponent and keeps the old target otherwise, and sets the
   * trait's flags.
   */
  lemma AiChoiceEffect(u: Unit, units: seq<Unit>, order: seq<Slot>, pick: nat)
    requires IsShuffle(order)
    ensures var v := AiChoice(u, units, order, pick);
      && v.identity == u.identity && v.parts == u.parts && v.medal == u.medal
      && (!InAiQuery(u) || u.status.state != ReadyToSelectAction || !HasUsablePart(u.parts) ==> v == u)
      && (v != u ==>
            && v.action.selectedPartKey.Some?
            && var slot := v.action.selectedPartKey.value;
            && slot in ATTACK_SLOTS && GetPart(u.parts, slot).Some? && u.parts[slot].charge > 0
            && v.status == WithTraitFlags(u.status.(state := ActionCharging, gauge := 0.0), u.parts[slot].actionTrait)
            && v.tags == u.tags.(charging := true)
            && (IsAttack(u.parts[slot].category) ==>
                  ValidEntity(units, v.action.targetedMedarot)
                  && IsTargetable(UnitAt(units, v.action.targetedMedarot), AiOpponent(u.identity.team)))
            && (!IsAttack(u.parts[slot].category) ==> v.action.targetedMedarot == u.action.targetedMedarot))
  {
    ShuffleMembers(order);
    ChargedSlotsExact(u.parts, order);
    var available := ChargedSlots(u.parts, order);
    if available != [] {
      assert available[0] in available;
    }
    AiChoiceCommits(u, units, order, pick);
  }

  /** What a choice that changes the unit commits to. */
  lemma AiChoiceCommits(u: Unit, units: seq<Unit>, order: seq<Slot>, pick: nat)
    requires IsShuffle(order)
    ensures var v := AiChoice(u, units, order, pick);
      v != u ==> (
            && v.action.selectedPartKey.Some?
            && var slot := v.action.selectedPartKey.value;
            && slot in ATTACK_SLOTS && GetPart(u.parts, slot).Some? && u.parts[slot].charge > 0
            && v.status == WithTraitFlags(u.status.(state := ActionCharging, gauge := 0.0), u.parts[slot].actionTrait)
            && v.tags == u.tags.(charging := true)
            && (IsAttack(u.parts[slot].category) ==>
                  ValidEntity(units, v.action.targetedMedarot)
                  && IsTargetable(UnitAt(units, v.action.targetedMedarot), AiOpponent(u.identity.team)))
            && (!IsAttack(u.parts[slot].category) ==> v.action.targetedMedarot == u.action.targetedMedarot))
  {
    ShuffleMembers(order);
    ChargedSlotsExact(u.parts, order);
    var available := ChargedSlots(u.parts, order);
    if InAiQuery(u) && u.status.state == ReadyToSelectAction && available != [] {
      assert available[0] in available;
      TargetsExact(units, AiOpponent(u.identity.team));
      var candidates := Targets(units, AiOpponent(u.identity.team));
      if candidates != [] {
        assert candidates[pick % |candidates|] in candidates;
      }
    }
  }

  /** A shuffle of the attack slots holds exactly the attack slots. */
  lemma ShuffleMembers(order: seq<Slot>)
    requires IsShuffle(order)
    ensures forall k :: k in order <==> k in ATTACK_SLOTS
  {
    forall k ensures k in order <==> k in ATTACK_SLOTS {
      assert k in order <==> k in multiset(order);
      assert k in ATTACK_SLOTS <==> k in multiset(ATTACK_SLOTS);
    }
  }

  /** A choice keeps the tags in agreement with the state. */
  lemma AiChoiceKeepsTags(u: Unit, units: seq<Unit>, order: seq<Slot>, pick: nat)
    requires TagsAgree(u)
    ensures TagsAgree(AiChoice(u, units, order, pick))
  {
  }

  /** The choice never changes a unit's identity, its Broken tag or whether it is broken. */
  lemma AiChoiceKeeps(u: Unit, units: seq<Unit>, order: seq<Slot>, pick: nat)
    ensures var v := AiChoice(u, units, order, pick);
      v.identity == u.identity && v.tags.broken == u.tags.broken && IsBroken(v.status) == IsBroken(u.status)
  {
  }

  /** AISystem.Update: during play every unit makes its choice against the world as it was before the tick. */
  method Update(w: World, orders: seq<seq<Slot>>, picks: seq<nat>)
    requires |orders| == |w.units| && |picks| == |w.units|
    modifies w
    ensures w.gameState == old(w.gameState) && w.actionSelect == old(w.actionSelect) && w.config == old(w.config)
    ensures |w.units| == |old(w.units)|
    ensures !(old(w.gameState).Some? && old(w.gameState).value.currentState == Playing) ==> w.units == old(w.units)
    ensures old(w.gameState).Some? && old(w.gameState).value.currentState == Playing ==>
      forall i :: 0 <= i < |w.units| ==> w.units[i] == AiChoice(old(w.units)[i], old(w.units), orders[i], picks[i])
  {
    if w.gameState.None? || w.gameState.value.currentState != Playing {
      return;
    }
    var i := 0;
    while i < |w.units|
      invariant 0 <= i <= |w.units| == |old(w.units)|
      invariant w.gameState == old(w.gameState) && w.actionSelect == old(w.actionSelect) && w.config == old(w.config)
      invariant forall j :: 0 <= j < i ==> w.units[j] == AiChoice(old(w.units)[j], old(w.units), orders[j], picks[j])
      invariant forall j :: i <= j < |w.units| ==> w.units[j] == old(w.units)[j]
      invariant SameTargeting(w.units, old(w.units))
    {
      TargetsFrame(w.units, old(w.units), AiOpponent(w.units[i].identity.team));
      var v := ChooseFor(w.units[i], w.units, orders[i], picks[i]);
      assert v == AiChoice(old(w.units)[i], old(w.units), orders[i], picks[i]);
      AiChoiceKeeps(old(w.units)[i], old(w.units), orders[i], picks[i]);
      SameTargetingUpdate(w.units, old(w.units), i, v);
      w.units := w.units[i := v];
      i := i + 1;
    }
  }

  /** The body of the query loop for one unit, step by step. */
  method ChooseFor(u: Unit, units: seq<Unit>, order: seq<Slot>, pick: nat) returns (v: Unit)
    ensures v == AiChoice(u, units, order, pick)
  {
    v := u;
    if !InAiQuery(u) || u.status.state != ReadyToSelectAction {
      return;
    }
    var available := UsableSlots(u.parts, order);
    if |available| == 0 {
      return;
    }
    var selectedSlot := available[0];
    var selectedPart := u.parts[selectedSlot];
    var candidates := Targets(units, AiOpponent(u.identity.team));
    if IsAttack(selectedPart.category) {
      if |candidates| == 0 {
        return;
      }
      v := v.(action := v.action.(targetedMedarot := candidates[pick % |candidates|]));
    }
    v := v.(action := v.action.(selectedPartKey := Some(selectedSlot)));
    v := v.(status := v.status.(state := ActionCharging, gauge := 0.0));
    v := v.(status := WithTraitFlags(v.status, selectedPart.actionTrait));
    v := v.(tags := v.tags.(charging := true));
  }

  /** Step 1 of the choice: the usable slots in the shuffled order. */
  method UsableSlots(parts: PartMap, order: seq<Slot>) returns (available: seq<Slot>)
    ensures available == ChargedSlots(parts, order)
  {
    available := [];
    var i := 0;
    while i < |order|
      invariant 0 <= i <= |order|
      invariant available + ChargedSlots(parts, order[i..]) == ChargedSlots(parts, order)
    {
      var slot := order[i];
      if slot in parts && !parts[slot].isBroken && parts[slot].charge > 0 {
        available := available + [slot];
      }
      assert order[i..][1..] == order[i + 1..];
      i := i + 1;
    }
    assert order[i..] == [];
  }
}
