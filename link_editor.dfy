/**
 * src/components/LinkEditor.tsx: the list operations behind the link editor.
 * Each builds a new list for `onLinksChange`; the draft link of the form is a
 * value handed in and handed back.
 */
module LinkEditor {
  import opened Wrappers
  import opened Types
  import opened Links

  /** The draft link the form holds: `newLink`. */
  datatype Draft = Draft(source: string, target: string, strength: int)

  /** The draft after a reset: no endpoints, strength 5. */
  const EmptyDraft: Draft := Draft("", "", 5)

  /** The result of an edit: the list handed to `onLinksChange` and the draft afterwards. */
  datatype Edit = Edit(links: seq<Link<string>>, draft: Draft)

  /** The link a draft describes. */
  function DraftLink(d: Draft): Link<string> {
    Link(d.source, d.target, d.strength)
  }

  /** The draft passes the guard of `addLink`: both ends chosen, and different. */
  predicate Acceptable(d: Draft) {
    d.source != "" && d.target != "" && d.source != d.target
  }

  /** `addLink`: appends the draft and resets it, unless the guard rejects it or the pair is linked already. */
  function AddLink(links: seq<Link<string>>, d: Draft): (e: Edit)
    ensures e == Edit(links, d) || e == Edit(links + [DraftLink(d)], EmptyDraft)
  {
    if d.source == "" || d.target == "" || d.source == d.target then Edit(links, d)
    else if Linked(links, d.source, d.target) then Edit(links, d)
    else Edit(links + [DraftLink(d)], EmptyDraft)
  }

  /**
   * An add succeeds exactly when the draft passes the guard and no link joins
   * its ends in either direction; it then appends one link at the end and
   * resets the draft, and otherwise changes neither the list nor the draft.
   */
  lemma AddLinkSpec(links: seq<Link<string>>, d: Draft)
    ensures var e := AddLink(links, d);
      && (e.links != links <==> Acceptable(d) && !Linked(links, d.source, d.target))
      && (e.links != links ==> e.links == links + [DraftLink(d)] && e.draft == EmptyDraft)
      && (e.links == links ==> e.draft == d)
  {
    if Acceptable(d) && !Linked(links, d.source, d.target) {
      assert |links + [DraftLink(d)]| != |links|;
    }
  }

  /** An accepted add keeps every earlier link in place. */
  lemma AddLinkKeepsPrefix(links: seq<Link<string>>, d: Draft)
    ensures var e := AddLink(links, d);
      |links| <= |e.links| <= |links| + 1 && e.links[..|links|] == links
  {
    assert (links + [DraftLink(d)])[..|links|] == links;
  }

  /** `addLink` keeps a list free of self-links and of pairs joined twice. */
  lemma AddLinkWellFormed(links: seq<Link<string>>, d: Draft)
    requires WellFormed(links)
    ensures WellFormed(AddLink(links, d).links)
  {
    if Acceptable(d) && !Linked(links, d.source, d.target) {
      AppendWellFormed(links, DraftLink(d));
    }
  }

  /** Adding the same draft again, or its reverse, adds nothing: the pair is linked now. */
  lemma AddLinkTwice(links: seq<Link<string>>, d: Draft)
    ensures var once := AddLink(links, d).links;
      && AddLink(once, d).links == once
      && AddLink(once, Draft(d.target, d.source, d.strength)).links == once
  {
    var once := AddLink(links, d).links;
    if Acceptable(d) {
      if !Linked(links, d.source, d.target) {
        assert Joins(once[|links|], d.source, d.target);
        assert Joins(once[|links|], d.target, d.source);
      } else {
        var k :| 0 <= k < |links| && Joins(links[k], d.source, d.target);
        assert Joins(once[k], d.target, d.source);
      }
    }
  }

  /** The links of positions k .. |links| - 1 whose position is not index: the `filter` of `removeLink`. */
  function KeepOthers(links: seq<Link<string>>, index: int, k: nat): seq<Link<string>>
    requires k <= |links|
    decreases |links| - k
  {
    if k == |links| then [] else (if k == index then [] else [links[k]]) + KeepOthers(links, index, k + 1)
  }

  /**
   * `removeLink(index)`: drops exactly the link at index, keeping the others in
   * order; an index outside the list changes nothing.
   */
  function RemoveLink(links: seq<Link<string>>, index: int): (r: seq<Link<string>>)
    ensures 0 <= index < |links| ==> r == links[..index] + links[index + 1..]
    ensures !(0 <= index < |links|) ==> r == links
  {
    KeepOthersSpec(links, index, 0);
    KeepOthers(links, index, 0)
  }

  /** The filter from position k on is the rest of the list without position index. */
  lemma {:induction false} KeepOthersSpec(links: seq<Link<string>>, index: int, k: nat)
    requires k <= |links|
    ensures k <= index < |links| ==> KeepOthers(links, index, k) == links[k..index] + links[index + 1..]
    ensures !(k <= index < |links|) ==> KeepOthers(links, index, k) == links[k..]
    decreases |links| - k
  {
    if k < |links| {
      KeepOthersSpec(links, index, k + 1);
      if k == index {
        assert links[k..index] == [];
      } else if k < index < |links| {
        assert links[k..index] == [links[k]] + links[k + 1..index];
      } else {
        assert links[k..] == [links[k]] + links[k + 1..];
      }
    }
  }

  /** Removing a link keeps a well-formed list well formed. */
  lemma RemoveLinkWellFormed(links: seq<Link<string>>, index: int)
    requires WellFormed(links)
    ensures WellFormed(RemoveLink(links, index))
  {
    var r := RemoveLink(links, index);
    if 0 <= index < |links| {
      assert forall k :: 0 <= k < |r| ==> r[k] == links[if k < index then k else k + 1];
    }
  }

  /**
   * `updateLinkStrength(index, strength)`: the list has the same length and
   * endpoints; only the link at index changes, and only its strength.
   */
  function UpdateLinkStrength(links: seq<Link<string>>, index: int, strength: int): (r: seq<Link<string>>)
    ensures |r| == |links|
    ensures forall k :: 0 <= k < |links| ==> r[k].source == links[k].source && r[k].target == links[k].target
    ensures forall k :: 0 <= k < |links| && k != index ==> r[k] == links[k]
    ensures 0 <= index < |links| ==> r[index].strength == strength
  {
    seq(|links|, k requires 0 <= k < |links| => if k == index then links[k].(strength := strength) else links[k])
  }

  /** Changing a strength changes neither which pairs are linked nor well-formedness. */
  lemma UpdateLinkStrengthKeepsPairs(links: seq<Link<string>>, index: int, strength: int, a: string, b: string)
    ensures Linked(UpdateLinkStrength(links, index, strength), a, b) <==> Linked(links, a, b)
    ensures WellFormed(UpdateLinkStrength(links, index, strength)) <==> WellFormed(links)
  {
    var r := UpdateLinkStrength(links, index, strength);
    assert forall k :: 0 <= k < |links| ==> (Joins(r[k], a, b) <==> Joins(links[k], a, b));
    assert forall i, j :: 0 <= i < |links| && 0 <= j < |links| ==>
      (Joins(r[j], r[i].source, r[i].target) <==> Joins(links[j], links[i].source, links[i].target));
  }

  /**
   * `getBuildingName(id)`: the name of the first building with that id, or the
   * id itself when no building has it or that name is empty.
   */
  function BuildingName(buildings: seq<BuildingTemplate>, id: string): (r: string)
    ensures (forall k :: 0 <= k < |buildings| ==> buildings[k].id != id) ==> r == id
    ensures forall k :: 0 <= k < |buildings| && buildings[k].id == id && (forall j :: 0 <= j < k ==> buildings[j].id != id) ==>
      r == (if buildings[k].name != "" then buildings[k].name else id)
  {
    match FindTemplate(buildings, id)
    case Some(b) => if b.name != "" then b.name else id
    case None => id
  }

  /** A label shown for a building is never empty unless the id is. */
  lemma BuildingNameNonEmpty(buildings: seq<BuildingTemplate>, id: string)
    requires id != ""
    ensures BuildingName(buildings, id) != ""
  {
  }

  /** The four thresholds of the strength bands, ascending. */
  const Thresholds: seq<int> := [2, 4, 6, 8]

  /** The band of a strength: how many of the thresholds it reaches. */
  function Band(strength: int): (b: nat)
    ensures b <= 4
    ensures forall k :: 0 <= k < 4 ==> (k < b <==> Thresholds[k] <= strength)
  {
    if strength >= 8 then 4 else if strength >= 6 then 3 else if strength >= 4 then 2 else if strength >= 2 then 1 else 0
  }

  const Labels: seq<string> := ["Very Weak", "Weak", "Medium", "Strong", "Very Strong"]
  const Colors: seq<string> := ["text-rw-surface-400", "text-green-400", "text-yellow-400", "text-orange-400", "text-rw-error"]

  /** `getStrengthLabel`: the label of the strength's band. */
  function StrengthLabel(strength: int): (text: string)
    ensures text == Labels[Band(strength)]
  {
    if strength >= 8 then "Very Strong"
    else if strength >= 6 then "Strong"
    else if strength >= 4 then "Medium"
    else if strength >= 2 then "Weak"
    else "Very Weak"
  }

  /** `getStrengthColor`: the colour of the strength's band. */
  function StrengthColor(strength: int): (color: string)
    ensures color == Colors[Band(strength)]
  {
    if strength >= 8 then "text-rw-error"
    else if strength >= 6 then "text-orange-400"
    else if strength >= 4 then "text-yellow-400"
    else if strength >= 2 then "text-green-400"
    else "text-rw-surface-400"
  }

  /**
   * Label and colour follow the same bands: each is the band's entry, so two
   * strengths share a label exactly when they share a colour.
   */
  lemma LabelAndColorShareBands(s: int, t: int)
    ensures StrengthLabel(s) == Labels[Band(s)] && StrengthColor(s) == Colors[Band(s)]
    ensures StrengthLabel(s) == StrengthLabel(t) <==> Band(s) == Band(t)
    ensures StrengthColor(s) == StrengthColor(t) <==> Band(s) == Band(t)
  {
  }

  /** A stronger link never gets a lower band. */
  lemma BandMonotone(s: int, t: int)
    requires s <= t
    ensures Band(s) <= Band(t)
  {
  }

  /** The slider range 1 .. 10 reaches every band. */
  lemma SliderReachesEveryBand(b: nat)
    requires b <= 4
    ensures exists s :: 1 <= s <= 10 && Band(s) == b
  {
    var s := if b == 0 then 1 else 2 * b;
    assert Band(s) == b;
  }
}
