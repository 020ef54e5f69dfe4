/**
 * src/data/presets.ts: the fifteen RimWorld building presets and the four
 * named configurations built from them. The code takes for granted that
 * every `find(...)!` succeeds and that the links are sound; here those facts
 * are lemmas about the data.
 */
module Presets {
  import opened Wrappers
  import opened Types
  import opened Links
  import BuildingEditor

  /** `RIMWORLD_BUILDING_PRESETS`, in order. */
  const BuildingPresets: seq<BuildingTemplate> := [
    BuildingTemplate("bedroom", "Bedroom", Rectangle, 7, 7, "#3b82f6"),
    BuildingTemplate("kitchen", "Kitchen", Rectangle, 8, 6, "#f97316"),
    BuildingTemplate("dining_room", "Dining Room", Rectangle, 10, 8, "#eab308"),
    BuildingTemplate("storage", "Storage", Rectangle, 8, 8, "#6b7280"),
    BuildingTemplate("freezer", "Freezer", Rectangle, 6, 6, "#06b6d4"),
    BuildingTemplate("workshop", "Workshop", Rectangle, 10, 8, "#92400e"),
    BuildingTemplate("research_lab", "Research Lab", Rectangle, 8, 6, "#7c3aed"),
    BuildingTemplate("hospital", "Hospital", Rectangle, 9, 7, "#ef4444"),
    BuildingTemplate("rec_room", "Recreation Room", Rectangle, 12, 10, "#f59e0b"),
    BuildingTemplate("growing_zone", "Growing Zone", Rectangle, 12, 8, "#10b981"),
    BuildingTemplate("animal_pen", "Animal Pen", Rectangle, 10, 10, "#84cc16"),
    BuildingTemplate("bunker", "Bunker", Rectangle, 6, 4, "#374151"),
    BuildingTemplate("turret_nest", "Turret Nest", Circle, 4, 4, "#dc2626"),
    BuildingTemplate("power_room", "Power Room", Rectangle, 6, 4, "#fbbf24"),
    BuildingTemplate("dumping_stockpile", "Dumping Stockpile", Rectangle, 8, 6, "#9ca3af")]

  /** The preset ids, in order. */
  const PresetIds: seq<string> := [
    "bedroom", "kitchen", "dining_room", "storage", "freezer", "workshop", "research_lab",
    "hospital", "rec_room", "growing_zone", "animal_pen", "bunker", "turret_nest",
    "power_room", "dumping_stockpile"]

  /** A configuration as written: the ids it looks up with `find(...)!`, in order, and its links. */
  datatype Configuration = Configuration(lookups: seq<string>, links: seq<Link<string>>)

  const BasicColony: Configuration := Configuration(
    ["bedroom", "kitchen", "dining_room", "storage", "growing_zone"],
    [ Link("kitchen", "dining_room", 8), Link("kitchen", "storage", 6),
      Link("bedroom", "dining_room", 5), Link("growing_zone", "kitchen", 4),
      Link("growing_zone", "storage", 3)])

  const IndustrialBase: Configuration := Configuration(
    ["bedroom", "kitchen", "dining_room", "workshop", "research_lab", "storage", "power_room"],
    [ Link("kitchen", "dining_room", 8), Link("workshop", "storage", 7),
      Link("workshop", "power_room", 6), Link("research_lab", "workshop", 5),
      Link("bedroom", "dining_room", 5), Link("storage", "power_room", 4)])

  const DefensiveOutpost: Configuration := Configuration(
    ["bedroom", "kitchen", "bunker", "turret_nest", "hospital", "storage"],
    [ Link("bunker", "turret_nest", 9), Link("hospital", "bunker", 7),
      Link("bedroom", "hospital", 6), Link("kitchen", "bedroom", 5),
      Link("storage", "hospital", 4), Link("storage", "kitchen", 4)])

  const SelfSufficientFarm: Configuration := Configuration(
    ["bedroom", "kitchen", "dining_room", "growing_zone", "animal_pen", "freezer", "storage"],
    [ Link("growing_zone", "kitchen", 9), Link("animal_pen", "kitchen", 8),
      Link("kitchen", "freezer", 7), Link("kitchen", "dining_room", 6),
      Link("freezer", "storage", 5), Link("bedroom", "dining_room", 5),
      Link("growing_zone", "storage", 4)])

  /** `RIMWORLD_PRESET_CONFIGURATIONS`: its keys with their values, in insertion order. */
  const Configurations: seq<(string, Configuration)> := [
    ("Basic Colony", BasicColony), ("Industrial Base", IndustrialBase),
    ("Defensive Outpost", DefensiveOutpost), ("Self-Sufficient Farm", SelfSufficientFarm)]

  /** `Object.keys`: the keys in insertion order. */
  function Keys(entries: seq<(string, Configuration)>): (keys: seq<string>)
    ensures |keys| == |entries|
    ensures forall k :: 0 <= k < |entries| ==> keys[k] == entries[k].0
  {
    seq(|entries|, k requires 0 <= k < |entries| => entries[k].0)
  }

  /** Indexing the object by a key: the first entry with that key, or undefined. */
  function Lookup(entries: seq<(string, Configuration)>, key: string): (r: Option<Configuration>)
    ensures r.None? <==> key !in Keys(entries)
    ensures r.Some? ==> exists k :: 0 <= k < |entries| && entries[k] == (key, r.value)
  {
    if |entries| == 0 then None
    else if entries[0].0 == key then Some(entries[0].1)
    else
      var r := Lookup(entries[1..], key);
      assert Keys(entries) == [entries[0].0] + Keys(entries[1..]);
      assert r.Some? ==> exists k :: 0 < k < |entries| && entries[k] == (key, r.value) by {
        if r.Some? {
          var k :| 0 <= k < |entries| - 1 && entries[1..][k] == (key, r.value);
          assert entries[k + 1] == (key, r.value);
        }
      }
      r
  }

  /** `getDefaultPresetConfiguration`: the value under the first key. */
  function DefaultPresetConfiguration(): Option<Configuration> {
    Lookup(Configurations, Keys(Configurations)[0])
  }

  /** The default configuration is Basic Colony, with its five buildings and five links. */
  lemma DefaultIsBasicColony()
    ensures Keys(Configurations)[0] == "Basic Colony"
    ensures DefaultPresetConfiguration() == Some(BasicColony)
    ensures |BasicColony.lookups| == 5 && |BasicColony.links| == 5
  {
  }

  /** The `find(...)!` results of a configuration, in order. */
  function Buildings(c: Configuration): (bs: seq<Option<BuildingTemplate>>)
    ensures |bs| == |c.lookups|
    ensures forall k :: 0 <= k < |c.lookups| ==> bs[k] == FindTemplate(BuildingPresets, c.lookups[k])
  {
    seq(|c.lookups|, k requires 0 <= k < |c.lookups| => FindTemplate(BuildingPresets, c.lookups[k]))
  }

  /** Every link strength lies in the range 1 .. 10 of the editor's slider. */
  predicate StrengthsInRange(links: seq<Link<string>>) {
    forall k :: 0 <= k < |links| ==> 1 <= links[k].strength <= 10
  }

  /**
   * What the code takes for granted about a configuration: each id it looks up
   * is a preset id, no id is looked up twice, every link joins two buildings
   * of the configuration, the links are well formed and their strengths lie
   * in the slider's range.
   */
  predicate Sound(c: Configuration) {
    && (forall k :: 0 <= k < |c.lookups| ==> c.lookups[k] in PresetIds)
    && UniqueIds(c.lookups)
    && Among(c.lookups, c.links)
    && WellFormed(c.links)
    && StrengthsInRange(c.links)
  }

  /** PresetIds lists the ids of the presets, and all fifteen differ. */
  lemma PresetIdsSpec()
    ensures TemplateIds(BuildingPresets) == PresetIds
    ensures UniqueIds(PresetIds)
  {
    PresetIdsMatch();
    PresetIdsUnique();
  }

  lemma PresetIdsMatch()
    ensures TemplateIds(BuildingPresets) == PresetIds
  {
    var ids := TemplateIds(BuildingPresets);
    assert |ids| == |PresetIds|;
    forall k | 0 <= k < |ids| ensures ids[k] == PresetIds[k] {
    }
  }

  lemma PresetIdsUnique()
    ensures UniqueIds(PresetIds)
  {
  }

  /** Every preset is at least 3 x 3, the editor's lower bound. */
  lemma PresetDimensions()
    ensures BuildingEditor.DimensionsOk(BuildingPresets)
  {
  }

  /**
   * In a sound configuration every `find(...)!` succeeds, and the found
   * templates are presets carrying the looked-up ids in order.
   */
  lemma SoundConfigurationResolves(c: Configuration)
    requires Sound(c)
    ensures forall k :: 0 <= k < |c.lookups| ==> Buildings(c)[k].Some?
    ensures forall k :: 0 <= k < |c.lookups| ==> Buildings(c)[k].value.id == c.lookups[k]
    ensures forall k :: 0 <= k < |c.lookups| ==> Buildings(c)[k].value in BuildingPresets
  {
    PresetIdsSpec();
    forall k | 0 <= k < |c.lookups| ensures Buildings(c)[k].Some? {
      var m :| 0 <= m < |PresetIds| && PresetIds[m] == c.lookups[k];
      assert BuildingPresets[m].id == c.lookups[k];
    }
  }

  lemma BasicColonySound()
    ensures Sound(BasicColony)
  {
    BasicColonyIds();
    BasicColonyLinks();
    BasicColonyPairs();
    SoundFromParts(BasicColony);
  }

  /** BasicColony looks up preset ids, none twice. */
  lemma BasicColonyIds()
    ensures forall k :: 0 <= k < |BasicColony.lookups| ==> BasicColony.lookups[k] in PresetIds
    ensures UniqueIds(BasicColony.lookups)
  {
    BasicColonyUnique();
  }

  lemma BasicColonyUnique()
    ensures UniqueIds(BasicColony.lookups)
  {
  }

  /** The links of BasicColony join its buildings, none to itself, with strengths in 1 .. 10. */
  lemma BasicColonyLinks()
    ensures Among(BasicColony.lookups, BasicColony.links)
    ensures NoSelfLinks(BasicColony.links)
    ensures StrengthsInRange(BasicColony.links)
  {
  }

  /** No unordered pair is joined twice in BasicColony. */
  lemma BasicColonyPairs()
    ensures NoDuplicatePairs(BasicColony.links)
  {
    var l := BasicColony.links;
    forall i, j | 0 <= i < j < |l| ensures !Joins(l[j], l[i].source, l[i].target) {
      assert l[i].source != l[j].source || l[i].target != l[j].target;
      assert l[i].source != l[j].target || l[i].target != l[j].source;
    }
  }

  lemma IndustrialBaseSound()
    ensures Sound(IndustrialBase)
  {
    IndustrialBaseIds();
    IndustrialBaseLinks();
    IndustrialBasePairs();
    SoundFromParts(IndustrialBase);
  }

  /** IndustrialBase looks up preset ids, none twice. */
  lemma IndustrialBaseIds()
    ensures forall k :: 0 <= k < |IndustrialBase.lookups| ==> IndustrialBase.lookups[k] in PresetIds
    ensures UniqueIds(IndustrialBase.lookups)
  {
    IndustrialBaseUnique();
  }

  lemma IndustrialBaseUnique()
    ensures UniqueIds(IndustrialBase.lookups)
  {
  }

  /** The links of IndustrialBase join its buildings, none to itself, with strengths in 1 .. 10. */
  lemma IndustrialBaseLinks()
    ensures Among(IndustrialBase.lookups, IndustrialBase.links)
    ensures NoSelfLinks(IndustrialBase.links)
    ensures StrengthsInRange(IndustrialBase.links)
  {
  }

  /** No unordered pair is joined twice in IndustrialBase. */
  lemma IndustrialBasePairs()
    ensures NoDuplicatePairs(IndustrialBase.links)
  {
    var l := IndustrialBase.links;
    forall i, j | 0 <= i < j < |l| ensures !Joins(l[j], l[i].source, l[i].target) {
      assert l[i].source != l[j].source || l[i].target != l[j].target;
      assert l[i].source != l[j].target || l[i].target != l[j].source;
    }
  }

  lemma DefensiveOutpostSound()
    ensures Sound(DefensiveOutpost)
  {
    DefensiveOutpostIds();
    DefensiveOutpostLinks();
    DefensiveOutpostPairs();
    SoundFromParts(DefensiveOutpost);
  }

  /** DefensiveOutpost looks up preset ids, none twice. */
  lemma DefensiveOutpostIds()
    ensures forall k :: 0 <= k < |DefensiveOutpost.lookups| ==> DefensiveOutpost.lookups[k] in PresetIds
    ensures UniqueIds(DefensiveOutpost.lookups)
  {
    DefensiveOutpostUnique();
  }

  lemma DefensiveOutpostUnique()
    ensures UniqueIds(DefensiveOutpost.lookups)
  {
  }

  /** The links of DefensiveOutpost join its buildings, none to itself, with strengths in 1 .. 10. */
  lemma DefensiveOutpostLinks()
    ensures Among(DefensiveOutpost.lookups, DefensiveOutpost.links)
    ensures NoSelfLinks(DefensiveOutpost.links)
    ensures StrengthsInRange(DefensiveOutpost.links)
  {
  }

  /** No unordered pair is joined twice in DefensiveOutpost. */
  lemma DefensiveOutpostPairs()
    ensures NoDuplicatePairs(DefensiveOutpost.links)
  {
    var l := DefensiveOutpost.links;
    forall i, j | 0 <= i < j < |l| ensures !Joins(l[j], l[i].source, l[i].target) {
      assert l[i].source != l[j].source || l[i].target != l[j].target;
      assert l[i].source != l[j].target || l[i].target != l[j].source;
    }
  }

  lemma SelfSufficientFarmSound()
    ensures Sound(SelfSufficientFarm)
  {
    SelfSufficientFarmIds();
    SelfSufficientFarmLinks();
    SelfSufficientFarmPairs();
    SoundFromParts(SelfSufficientFarm);
  }

  /** SelfSufficientFarm looks up preset ids, none twice. */
  lemma SelfSufficientFarmIds()
    ensures forall k :: 0 <= k < |SelfSufficientFarm.lookups| ==> SelfSufficientFarm.lookups[k] in PresetIds
    ensures UniqueIds(SelfSufficientFarm.lookups)
  {
    SelfSufficientFarmUnique();
  }

  lemma SelfSufficientFarmUnique()
    ensures UniqueIds(SelfSufficientFarm.lookups)
  {
  }

  /** The links of SelfSufficientFarm join its buildings, none to itself, with strengths in 1 .. 10. */
  lemma SelfSufficientFarmLinks()
    ensures Among(SelfSufficientFarm.lookups, SelfSufficientFarm.links)
    ensures NoSelfLinks(SelfSufficientFarm.links)
    ensures StrengthsInRange(SelfSufficientFarm.links)
  {
  }

  /** No unordered pair is joined twice in SelfSufficientFarm. */
  lemma SelfSufficientFarmPairs()
    ensures NoDuplicatePairs(SelfSufficientFarm.links)
  {
    var l := SelfSufficientFarm.links;
    forall i, j | 0 <= i < j < |l| ensures !Joins(l[j], l[i].source, l[i].target) {
      assert l[i].source != l[j].source || l[i].target != l[j].target;
      assert l[i].source != l[j].target || l[i].target != l[j].source;
    }
  }

  /** The parts of soundness give soundness. */
  lemma SoundFromParts(c: Configuration)
    requires forall k :: 0 <= k < |c.lookups| ==> c.lookups[k] in PresetIds
    requires UniqueIds(c.lookups) && Among(c.lookups, c.links)
    requires NoSelfLinks(c.links) && NoDuplicatePairs(c.links) && StrengthsInRange(c.links)
    ensures Sound(c)
  {
  }

  /** All four configurations are sound, so every lookup of theirs succeeds. */
  lemma ConfigurationsSound()
    ensures forall k :: 0 <= k < |Configurations| ==> Sound(Configurations[k].1)
    ensures UniqueIds(Keys(Configurations))
  {
    BasicColonySound();
    IndustrialBaseSound();
    DefensiveOutpostSound();
    SelfSufficientFarmSound();
  }
}
